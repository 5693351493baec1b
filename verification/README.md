# Verification of the desktop application's core logic

A Dafny 4.11 model of the parts of the application where a mistake would be hardest to see: what decides
whose screen is read, what is queued, shown and uploaded, and the loops the rest relies on. Verify with
`dafny verify dfyconfig.toml`.

Code that changes its state step by step is a class whose methods are proved against a step function; the
step function is then shown to keep its invariants in every run. What waits for the disk or for the model
in the original is two steps here, its beginning and its end, and steps may come in any order. Loops over
local variables are methods with invariants, proved against a recursive definition whose own laws are
proved beside it.

| file | what it models |
|---|---|
| `CaptureOwner.dfy` | the engine's capture switch, sign-ins and settings: who is read, and on whose say |
| `Decisions.dfy` | approving and rejecting: the lock, the outbox write that may take its time or fail, the pool |
| `OutboxOwner.dfy` | the account the outbox is stamped with, the one the pool belongs to, and the one signed in |
| `Record.dfy` | a record kept in a file, updated by copy, wait and assign; the settings and the outbox are both kept so |
| `Digest.dfy`, `Selection.dfy` | the daily digest, and why its two-phase greedy selection is the largest the caps allow |
| `DailyLimit.dfy` | the digest under decisions that take their time: when ten a day holds |
| `Pipeline.dfy`, `ReadBuffer.dfy` | the extraction queue and the buffer of reads, with exact accounts of both |
| `LineSplitter.dfy`, `HelperLink.dfy` | the helper's output as lines whatever its chunks, and the lines that come too early |
| `Score.dfy`, `EditDistance.dfy`, `Confusions.dfy`, `Utf16.dfy` | the reader's scorer: edit distance, host distance, accuracy, the substitution table |
| `Frame.dfy` | the two pixel hashes of a frame |
| `TextLines.dfy`, `Homoglyphs.dfy`, `StableSort.dfy` | reading order, the gutter rules that delete text, look-alike letters |
| `FocusGate.dfy` | when a change of window or title becomes a focus event |
| `GVariant.dfy` | the string arrays exchanged with `gsettings` |
| `Luhn.dfy` | the check-digit test (Annex B of ISO/IEC 7812-1) |
| `Sequences.dfy`, `Wrappers.dfy` | lists and missing values, shared by the others |

Where the code does less than what is written beside it, or than its rules suggest, the model follows the
code, gives a run or an input, and proves exactly when:

- `app/src/main/settings.ts:85-95` builds the next record before it waits for the disk. Turning capture off
  is therefore undone by an update of the settings that was begun while the record still said on and that
  succeeds (`CaptureOwner.OffForGoodIff`, `CaptureOwner.SwitchOffLandsForGoodIff`,
  `CaptureOwner.SwitchedOffYetRunning`). An evaluation that leaves
  the loop running leaves it running for the account that switched capture on all the same.
- `app/src/main/review/uploader.ts:133-140` does the same with the outbox: of two approves whose writes
  overlap the first can be lost, unless a send has taken it along before (`Decisions.ResolvedStaysIff`,
  `Decisions.ApprovedStaysIff`, `Decisions.OverlappingApprovesLoseOne`).
- `app/src/main/review/uploader.ts:27` says another account's statements are never uploaded to the wrong
  profile. A statement approved while the outbox still carries another account's stamp, after an adoption the
  disk refused, is (`OutboxOwner.OwnOutboxIff`, `OutboxOwner.ApprovedUnderOther`,
  `OutboxOwner.SentAsOtherOrDiscarded`).
- `app/src/main/engine.ts:717` puts the outbox write before the pool's, so that a crash in between shows the
  item again. If it is rejected then, it can be sent nevertheless (`Decisions.PutAndRejectedIff`,
  `Decisions.LeftoverRejectedYetSent`).
- `app/src/main/engine.ts:716` looks for the statement in the list and `app/src/main/engine.ts:730` resolves it
  after the wait, so more than the day's ten can be resolved (`DailyLimit.TenADayIff`, `DailyLimit.ElevenInADay`).
- `app/src/readerEval/score.ts:265` says no character `norm` can produce is a NUL. It can, and such a pair is
  named wrongly in the table (`Confusions.MisnamedIff`, `Confusions.NulMisnamed`); the counts are right either way.
- `app/native/reader/src/frame.rs:110` says frames of other shapes must not match. For frames whose rows fold
  alike that is so exactly below 2^32 (`Frame.GeometryTakesPart`, `Frame.WideShapesMeet`).
- `app/native/reader/src/frame.rs:104` says a short row cannot collide with a zero-padded longer one. It cannot
  while the zeros stay within its last word; with more of them it can (`Frame.PaddedRowDiffers`,
  `Frame.ZerosSeenIff`, `Frame.ZerosUnseen`).
- `app/src/core/buffer.ts:26-27` says the first read of a window one comes back to is never suppressed. It is, with
  the text it had, when nothing read in between was long enough to be kept (`ReadBuffer.ReturnUnchangedIff`,
  `ReadBuffer.GlanceAwayForgetsNothing`).

## Model

| member | source | states |
|---|---|---|
| EditDistance.LevIsLeastCost | app/src/readerEval/score.ts:69-82 | The recursive distance is the least cost of any insert/delete/substitute script between the two sequences: a number is the distance if and only if some script costs that and none costs less. |
| EditDistance.BestScript | app/src/readerEval/score.ts:69-82 | A script from the first sequence to the second that costs exactly the distance. |
| EditDistance.NoCheaperScript | app/src/readerEval/score.ts:69-82 | No script costs less than the distance between its ends. |
| EditDistance.ZeroIffEqual | app/src/readerEval/score.ts:69-82 | Distance zero if and only if the sequences are equal. |
| EditDistance.Symmetric | app/src/readerEval/score.ts:69-82 | The distance is symmetric. |
| EditDistance.Compose | app/src/readerEval/score.ts:69-82 | Two scripts run one after the other can be made one script that costs no more than both. |
| EditDistance.Triangle | app/src/readerEval/score.ts:69-82 | The triangle inequality. |
| EditDistance.LengthBounds | app/src/readerEval/score.ts:69-82 | The distance lies between the difference of the lengths and the longer length. |
| Utf16.PointsRoundTrip | app/src/readerEval/score.ts:70-71 | Spreading any string, lone surrogates included, into code points loses nothing: the units can be rebuilt. |
| Utf16.TrimIs | app/src/core/buffer.ts:24 | What `trim` takes off is white space, at both ends, and all of it. |
| Utf16.SpacesListed | app/src/shell/gnomeExtension.ts:98 | The white space of the language, one by one. |
| Score.Levenshtein | app/src/readerEval/score.ts:69-82 | The two-row loop returns the distance of the two strings' code points. |
| Score.Accuracy | app/src/readerEval/score.ts:231-235 | The share is in [0, 1]; it is 1 if and only if the normalised texts are equal, 0 if and only if the distance reaches the measure, which is the truth's code points and at least one, and otherwise it times the measure is the measure less the distance. |
| Score.ScannedStrip | app/src/readerEval/score.ts:181-186 | What is scanned is a prefix of at most 1024 units, the whole strip when it is that short; a longer one is cut at 1024 units, or one before if and only if a surrogate pair may begin there. |
| Score.ScannedStripKeepsCharacters | app/src/readerEval/score.ts:163-186 | The cut never splits a character: for every strip, the scanned code points are a prefix of the strip's. |
| Score.HostDistance | app/src/readerEval/score.ts:212-228 | With its early exit and its cap: nothing when the strip or the host is missing or empty, and otherwise the least distance from the host to any window of a banded width of the scanned strip, cut off at 64. |
| Score.ZeroIffOccurs | app/src/readerEval/score.ts:201-227 | The answer is 0 if and only if the host occurs in the scanned strip. |
| Score.ZeroMeansInToolbar | app/src/readerEval/run.ts:232-237 | A reported 0 means that `hostInToolbar` is true, for strips of every length. |
| Score.AgreesWithHostInToolbar | app/src/readerEval/run.ts:232-237 | On a strip short enough to be scanned whole, the two agree both ways. |
| Score.OutOfBandIsNoCloserThanTwo | app/src/readerEval/score.ts:198-203 | A window whose length differs from the host's by more than two is no closer than two, whatever the texts; without surrogates no closer than three. |
| Score.BandSuffices | app/src/readerEval/score.ts:198-203 | Hence a reported distance of at most two is the least distance to any window at all, for all texts; without surrogates so is a reported three. |
| Score.TwoIsReachedOutOfBand | app/src/readerEval/score.ts:198-203 | The two is sharp: with surrogates a window outside the band can be at exactly two. |
| Confusions.CostMatrix | app/src/readerEval/score.ts:295-313 | The full matrix holds the distance of every pair of prefixes. |
| Confusions.WalkIsOptimal | app/src/readerEval/score.ts:315-334 | The walk back follows one least-cost script: the tally has one entry for each pair and is exactly its substitutions, and tallied substitutions, one-sided moves and what is left when a side runs out add up to the distance. |
| Confusions.Walk | app/src/readerEval/score.ts:315-334 | The loop over the matrix ends on every input with that tally, one entry for each pair, and those sums. |
| Confusions.RowsAreSubstitutions | app/src/readerEval/score.ts:336-341 | The rows of the table are the pairs substituted in the alignment, each with how often it is. |
| Confusions.NamedIffNoNul | app/src/readerEval/score.ts:264-269 | A tally key names its two characters back if and only if neither is a NUL. |
| Confusions.MisnamedIff | app/src/readerEval/score.ts:264-269 | For all texts: the table has a row that does not name one character on each side if and only if the alignment substitutes a NUL, or puts one. |
| Confusions.NulFreeTextsNamedRight | app/src/readerEval/score.ts:264-341 | For texts without a NUL every row names its pair and counts that pair's substitutions. |
| Confusions.NoRowTwice | app/src/readerEval/score.ts:336-341 | And no row is there twice. |
| Confusions.NulMisnamed | app/src/readerEval/score.ts:264-269 | The failing input: a truth of one NUL read as a letter gives one row that names nothing. |
| Confusions.Table | app/src/readerEval/score.ts:292-341 | The table is the first `max` of those rows, in the comparator's order, and its counts never add up to more than the distance. |
| Confusions.CountsFall | app/src/readerEval/score.ts:341 | Counts never rise along the table, so no row cut off counts more than one kept. |
| Confusions.TiesByUnits | app/src/readerEval/score.ts:341 | Rows that count alike stand by the missed character and then by the one read for it, compared as UTF-16 units. |
| Frame.PixelHash | app/native/reader/src/frame.rs:81-113 | The nested loops compute the fold of the words of the visible rows, and of the geometry, from the two starting values. |
| Frame.UnmixRoundTrip | app/native/reader/src/frame.rs:116-126 | Both mixing steps are undone by explicit inverses modulo 2^64, given the word. |
| Frame.MixKeepsApart | app/native/reader/src/frame.rs:116-126 | Both are injective in the state and in the word. |
| Frame.LengthTakesPart | app/native/reader/src/frame.rs:100-107 | Two short tails of different length never make the same word. |
| Frame.ShortMeetsWholeIff | app/native/reader/src/frame.rs:92-107 | A short last word and a whole word agree if and only if the whole one is the short one, zeros, and its length as last byte; so zeros that fill the word up are told apart. |
| Frame.PaddedRowDiffers | app/native/reader/src/frame.rs:103-107 | A frame and the same frame with zeros behind a row differ in both hashes as long as the zeros add no word. |
| Frame.ZerosSeenIff | app/native/reader/src/frame.rs:103-107 | When they add words behind a row of whole words: they are seen if and only if folding those words moves the state the row has left. |
| Frame.RestStays | app/native/reader/src/frame.rs:92-96 | No number of zero words moves two states of zero. |
| Frame.ZerosUnseen | app/native/reader/src/frame.rs:103-107 | The failing input: two frames of one shape with early-ending buffers, the one eight zero bytes after the other, hash alike. |
| Frame.HashIgnoresPadding | app/native/reader/src/frame.rs:79-99 | For any two frames at all, equal geometry and equal visible rows give equal hashes. |
| Frame.SamePixelsSameHash | app/native/reader/src/frame.rs:79-99 | Well-formed frames with the same pixels hash alike whatever their strides, padding and buffer lengths. |
| Frame.OneWordChangesBothHashes | app/native/reader/src/frame.rs:69-80 | Frames of one shape whose visible bytes differ inside one 8-byte word of one row differ in both hashes. |
| Frame.OnePixelChangesBothHashes | app/native/reader/src/frame.rs:199-208 | One changed pixel of 1, 2, 4 or 8 bytes changes both hashes, for frames of any stride. |
| Frame.FoldRowsIsFold | app/native/reader/src/frame.rs:85-108 | Where rows end makes no difference to the folds, only the words in their order. |
| Frame.GeometryTakesPart | app/native/reader/src/frame.rs:110-112 | Frames whose rows fold alike, whatever their shapes, hash alike if and only if the low 32 bits of the widths and of the heights agree; otherwise both hashes differ. |
| Frame.SameBytesOtherShape | app/native/reader/src/frame.rs:110-112 | That is so whenever the same bytes are cut into other rows, each a whole number of words. |
| Frame.UniformShapesDiffer | app/native/reader/src/frame.rs:220-225 | Frames of one byte value and one size in bytes, but of other shapes below 2^32, differ in both hashes. |
| Frame.EightByFourIsNotFourByEight | app/native/reader/src/frame.rs:220-225 | In particular eight by four and four by eight pixels. |
| Frame.WideShapesMeet | app/native/reader/src/frame.rs:110-112 | From 2^32 on shapes can meet: a width of 0 and one of 2^32, on frames without a byte. |
| Frame.SmallShapesKept | app/native/reader/src/frame.rs:110-112 | Below 2^32 those low bits are the shape. |
| Luhn.LuhnValid | app/src/core/scrub/luhn.ts:1-12 | The right-to-left loop accepts exactly 13 to 19 digits whose sum, every second one doubled and reduced, is a multiple of ten. |
| Luhn.ValidFromRight | app/src/core/scrub/luhn.ts:1-12 | A number is valid if and only if it has 13 to 19 digits and the sum worked out by hand ends in 0: from the right, the last digit as it is, the one before it as the digit sum of its double, and so on. |
| Luhn.SingleErrorDetected | app/src/core/scrub/luhn.ts:1-12 | Every single wrong digit is detected. |
| Luhn.TranspositionDetected | app/src/core/scrub/luhn.ts:1-12 | Swapping two neighbours goes unnoticed if and only if they are equal or a 0 beside a 9. |
| Luhn.OneCheckDigit | app/src/core/scrub/luhn.ts:1-12 | For every prefix of 12 to 18 digits exactly one final digit is valid. |
| FocusGate.FocusGate.Observe | app/native/reader/src/focus_gate.rs:135-162 | What one observation does to the three fields, and whether it emits. |
| FocusGate.FocusGate.Announce | app/native/reader/src/focus_gate.rs:175-179 | The state is announced, the moment noted, nothing owed. |
| FocusGate.FocusGate.Poll | app/native/reader/src/focus_gate.rs:121-129 | What one tick does: nothing at all while locked or with nothing to see. |
| FocusGate.RunConsistent | app/native/reader/src/focus_gate.rs:121-179 | In every run with times in order, the announced state and the moment of the last emission are set together, and that moment is never in the future. |
| FocusGate.EmitsIff | app/native/reader/src/focus_gate.rs:121-162 | Over every run: a tick emits if and only if it is unlocked and sees something, and nothing was announced, or the process or the window differs, or the title differs and five seconds have passed since the last emission. |
| FocusGate.AnnouncedIsLastEmitted | app/native/reader/src/focus_gate.rs:175-179 | What the gate holds as announced, and since when, is what the last tick that emitted saw, and when. |
| FocusGate.EmissionRate | app/native/reader/src/focus_gate.rs:135-179 | Over every such run, emissions are at most one, plus one for each move to another window or process, plus one for each five seconds elapsed. |
| FocusGate.NothingForgotten | app/native/reader/src/focus_gate.rs:135-162 | After every unlocked observation the announced state is what was seen, or differs in the title only, less than five seconds after the last emission and with that title owed. |
| FocusGate.QuietTicksChangeNothing | app/native/reader/src/focus_gate.rs:110-129 | Any stretch of locked or empty ticks changes neither the state nor the emissions. |
| FocusGate.HeldBackTitleIsAnnounced | app/native/reader/src/focus_gate.rs:153-161 | A held-back title that is still there five seconds after the last emission is announced by the first tick that sees it. |
| LineSplitter.SplitIsExact | app/src/shell/readerLink.ts:60-79 | The reference reading of a text as finished lines and a rest is exact: put back together they are the text, and no line holds a newline. |
| LineSplitter.LineSplitter.Finish | app/src/shell/readerLink.ts:47-57 | A newline ends the line in progress: delivered without one trailing CR, replaced by the marker when over the cap, or dropped when the marker was already sent. |
| LineSplitter.LineSplitter.Hold | app/src/shell/readerLink.ts:68-74 | The end of a chunk joins the line in progress; once over the cap it is given up, with one marker. |
| LineSplitter.LineSplitter.Push | app/src/shell/readerLink.ts:60-75 | After every chunk, what has been delivered is the batch function of all text so far, and what is held is at most the cap. |
| LineSplitter.LineSplitter.End | app/src/shell/readerLink.ts:76 | The end of the stream drops the line in progress and delivers nothing. |
| LineSplitter.LineSplitter.Pending | app/src/shell/readerLink.ts:77 | The held part is the unfinished line, or nothing once it is over the cap. |
| LineSplitter.DeliverAll | app/src/shell/readerLink.ts:40-79 | For every way of cutting the text into chunks, the lines delivered are the batch function of the whole text. |
| LineSplitter.OneLineForEachNewline | app/src/shell/readerLink.ts:40-79 | Each finished line gives exactly one delivered line, in order, and an unfinished one over the cap one marker more. |
| LineSplitter.ShownIs | app/src/shell/readerLink.ts:47-57 | A finished line of up to two million units is delivered without the one CR it may end in, and a longer one as the fixed marker. |
| HelperLink.ChildLink.OnDelivered | app/src/shell/readerLink.ts:117-120 | A line goes to the client when the link is open, else to the queue while it has room, else nowhere. |
| HelperLink.ChildLink.OnLine | app/src/shell/readerLink.ts:143-153 | Registration opens the link, or queues one flush when lines wait. |
| HelperLink.ChildLink.RunMicrotask | app/src/shell/readerLink.ts:147-151 | The flush hands over everything held and opens the link. |
| HelperLink.StepKeepsInvariant | app/src/shell/readerLink.ts:97-153 | Every step keeps: handed over plus held is the first 64 lines held back and everything after the link opened. |
| HelperLink.DeliveredInOrder | app/src/shell/readerLink.ts:97-153 | In every run lines are handed over in the order they came, and once the link is open none is held back; at most 64 ever wait. |
| HelperLink.NothingLostIff | app/src/shell/readerLink.ts:97-120 | No line is lost if and only if at most 64 arrived before the link opened. |
| HelperLink.RegisteredMeansServed | app/src/shell/readerLink.ts:143-153 | A registered client is served now or by the flush that is queued. |
| HelperLink.OpensIff | app/src/shell/readerLink.ts:143-153 | The link opens at the registration if no line came before it, otherwise at the flush after it, and never closes: told by the events alone. |
| HelperLink.KeptIs | app/src/shell/readerLink.ts:97-120 | The bound in numbers: of the lines that came before the link opened the first 64 are kept, and all that came after. |
| GVariant.UnescapeEscaped | app/src/shell/gnomeExtension.ts:87-92 | Unescaping what was escaped gives it back, including text that looks like an escape. |
| GVariant.BodyIsUnique | app/src/shell/gnomeExtension.ts:94 | The quoted-string pattern can match in one way only, so scanning forward loses nothing to backtracking. |
| GVariant.QuotedIsMatch | app/src/shell/gnomeExtension.ts:94 | The scanner finds a quoted string if and only if the pattern matches there, and finds that match. |
| GVariant.GvariantStrings | app/src/shell/gnomeExtension.ts:97-115 | The parser's loop ends on every input and returns what the recursive reading of the text gives. |
| GVariant.RoundTrip | app/src/shell/gnomeExtension.ts:86-121 | Parsing what is printed returns the list, for every list of strings. |
| GVariant.PrintingIsInjective | app/src/shell/gnomeExtension.ts:117-121 | Two lists printed alike are the same list. |
| GVariant.UnescapeIs | app/src/shell/gnomeExtension.ts:87-92 | Each escape in turn: the three named ones, any other character for itself, and a backslash before a line end or at the end left alone. |
| GVariant.HexEscapeRead | app/src/shell/gnomeExtension.ts:87-92 | Every unit written as four hexadecimal digits, in either case, is read back as itself. |
| GVariant.ParsedIff | app/src/shell/gnomeExtension.ts:97-115 | The parser accepts a text if and only if what is between the brackets is quoted strings, in either quote, with a comma and any white space between them and perhaps after the last; it answers what their bodies unescape to. |
| GVariant.InnerIs | app/src/shell/gnomeExtension.ts:97-101 | What may stand about that list: white space, the type and more white space, the brackets, and white space inside them. |
| Homoglyphs.SplitKeepingWhitespace | app/native/reader/src/text.rs:268-292 | The cursor loop yields the maximal runs of white space and of anything else. |
| Homoglyphs.PiecesMakeTheLine | app/native/reader/src/text.rs:267-292 | The pieces put back together are the line. |
| Homoglyphs.NormaliseHomoglyphs | app/native/reader/src/text.rs:216-233 | The repair, with its early exit: the answer is as long as the line, and at each place has the twin of the character if the word there holds a Latin letter, and the character itself if not. |
| Homoglyphs.NormalisedAt | app/native/reader/src/text.rs:195-200 | For every line and place: if the word there, with no white space in between, holds a Latin letter, the character becomes its twin, and otherwise it stays. |
| Homoglyphs.NoTwinBesideLatin | app/native/reader/src/text.rs:195-200 | No word of a repaired line holds both a twin and a Latin letter. |
| Homoglyphs.UnchangedIff | app/native/reader/src/text.rs:195-216 | A line comes back as it was if and only if no word of it holds both. |
| Homoglyphs.MeasuredCase | app/native/reader/src/text.rs:428-431 | The measured word, a Cyrillic capital before Latin letters, is repaired. |
| Homoglyphs.PiecesAlternate | app/native/reader/src/text.rs:267-292 | Pieces are never empty, each is all white space or none, and the kinds alternate. |
| Homoglyphs.PiecesOfNormalised | app/native/reader/src/text.rs:186-233 | The pieces of the repaired line are the line's pieces each repaired: length and white space stay, and a character changes only to its twin. |
| Homoglyphs.RepairedKeepsShape | app/native/reader/src/text.rs:235-251 | Repairing a piece keeps its length and white space and replaces characters only by their twins. |
| Homoglyphs.RepairKeepsScript | app/native/reader/src/text.rs:235-239 | A word has a Latin letter after repair if and only if it had one before. |
| Homoglyphs.NormalisedIdempotent | app/native/reader/src/text.rs:86-92 | Repairing twice is repairing once. |
| TextLines.Order | app/native/reader/src/text.rs:54-71 | Sorting, grouping and sorting within rows, as the loops do it. |
| TextLines.OrderKeepsLines | app/native/reader/src/text.rs:54-71 | No line is lost, invented or repeated. |
| TextLines.ReadingOrder | app/native/reader/src/text.rs:47-76 | The answer is rows from the top down, each holding the lines whose tops are within half its first line's height and ending where one is not, each read from left to right. |
| TextLines.SortedRowsTopDown | app/native/reader/src/text.rs:54-71 | Sorting within rows never puts a line below one of a later row. |
| StableSort.StableSortUnique | app/native/reader/src/text.rs:57-67 | A sorted and stable rearrangement is unique, so the sort used stands for the library's. |
| TextLines.GutterMarks | app/native/reader/src/text.rs:350-374 | The maximal-run loop marks a line if and only if it is one of three successive left-edge candidates that step by exactly one, with the candidate's shape. |
| TextLines.RunDecides | app/native/reader/src/text.rs:362-372 | In a maximal run of steps either every candidate lies in such a triple or none does, and which it is depends on the run having three. |
| TextLines.ShapeOf | app/native/reader/src/text.rs:309-333 | A candidate's shape is what it says: a bare number of 1 to 6 digits, or 1 to 5 digits and one to three white-space characters, at the left edge. |
| TextLines.WhatIsDeleted | app/native/reader/src/text.rs:335-349 | What a mark takes away: a whole line only when it is nothing but a number at the left edge, or a line's leading digits and at most three white-space characters. |
| TextLines.MarkLeaves | app/native/reader/src/text.rs:108-122 | What the rules leave of a line given its mark, said without the mark: an unmarked line is kept whole. |
| TextLines.Cleaned | app/native/reader/src/text.rs:108-122 | The loops leave of the lines, in order and with their boxes: nothing of a line that is only a number at the left edge and one of three that count up, what follows the number and its white space of any other that counts up, and the whole repaired text of every other line. |
| TextLines.CleanedIs | app/native/reader/src/text.rs:108-122 | For all lines: rising places match the answer to the lines, each with its box. A line is missing if and only if it is nothing but a number at the left edge and one of three numbered lines in succession that count up; of the other such lines exactly what follows the number and its white space is left; every other line keeps its whole repaired text. |
| TextLines.ElsewhereKept | app/native/reader/src/text.rs:26-28 | A line that is not at the left edge is never touched. |
| TextLines.CandidateIs | app/native/reader/src/text.rs:309-333 | The converse of the shapes: every bare number at the left edge, and every number before white space, is a candidate with the number's value. |
| TextLines.NumberIff | app/native/reader/src/text.rs:322-333 | A line is a candidate if and only if it has such a number, which is unique, and it is to be dropped whole if and only if it is nothing else. |
| TextLines.NumberJoins | app/native/reader/src/text.rs:323-333 | Digits are read as a decimal number, place by place. |
| TextLines.NumberOfDecimal | app/native/reader/src/text.rs:323-333 | Reading what a number is written as gives the number. |
| TextLines.InRunIff | app/native/reader/src/text.rs:350-374 | The runs of candidates are the numbered lines in succession that count up by one, three or more. |
| TextLines.CleanedUnique | app/native/reader/src/text.rs:108-122 | That answer is determined by the lines. |
| TextLines.RepairFirstChangesNothing | app/native/reader/src/text.rs:83-92 | Repairing every line before the clean-up does not change its result. |
| TextLines.AssembleIgnoresRepair | app/native/reader/src/text.rs:83-95 | Nor does it change the assembled text. |
| TextLines.Assemble | app/native/reader/src/text.rs:93-131 | The text is the join of the cleaned lines. |
| TextLines.JoinSplits | app/native/reader/src/text.rs:129-131 | One newline between any two parts of the text, and none about a single line. |
| ReadBuffer.ReadBuffer.Accept | app/src/core/buffer.ts:23-33 | A read is kept if and only if its trimmed text has forty units and its app, title or text differs from the last kept one's; then it is added last and becomes the fingerprint, and otherwise nothing changes. |
| ReadBuffer.KeptIff | app/src/core/buffer.ts:23-33 | The same of the two functions the runs are made of. |
| ReadBuffer.ReturnUnchangedIff | app/src/core/buffer.ts:26-28 | Coming back to a window with the text it had: the read is taken for unchanged if and only if no read of another window in between was long enough to be kept. |
| ReadBuffer.GlanceAwayForgetsNothing | app/src/core/buffer.ts:26-28 | The failing input: a glance at a window with a short text, and back. |
| ReadBuffer.ReadBuffer.Expire | app/src/core/buffer.ts:34-38 | Reads over sixty minutes old go, and the count is how many. |
| ReadBuffer.ReadBuffer.TakeRange | app/src/core/buffer.ts:39-40 | `range` and `dropRange` together: the reads inside are taken, the others stay. |
| ReadBuffer.RangeSplitsBuffer | app/src/core/buffer.ts:39-40 | What a span takes and what it leaves are exactly the buffer. |
| ReadBuffer.ExpirySplitsBuffer | app/src/core/buffer.ts:34-38 | What expires and what stays are exactly the buffer, and what stays is young enough. |
| ReadBuffer.ExpiryIs | app/src/core/buffer.ts:34-38 | Exactly the reads over 3,600,000 milliseconds old go; the others stay in their order. |
| ReadBuffer.RangeIs | app/src/core/buffer.ts:39-40 | Exactly the reads inside the span are taken and exactly the others stay, both in their order. |
| Pipeline.Pipeline.Pump | app/src/core/index.ts:110-114 | The next waiting scenario starts unless paused, busy or none waits; the reads are untouched. |
| Pipeline.Pipeline.CloseSpan | app/src/core/index.ts:116-129 | The span takes its reads; a thin one is dropped; a full queue loses its oldest; then the queue is pumped. |
| Pipeline.Pipeline.OnTick | app/src/core/index.ts:170-180 | Expiry, the closing span, then the stale scenarios. |
| Pipeline.Pipeline.OnExtractionEnds | app/src/core/index.ts:110-114 | The running scenario is finished and the next one starts. |
| Pipeline.Pipeline.OnModel | app/src/core/index.ts:181-187 | Pausing and resuming, the latter with a pump. |
| Pipeline.Pipeline.OnCaptureOff | app/src/core/index.ts:188-192 | Capture off closes the open span. |
| Pipeline.Pipeline.OnIngest | app/src/core/index.ts:139-169 | A read that the gates and the scrubbing let through is offered to the buffer. |
| Pipeline.StepKeepsSpans | app/src/core/index.ts:110-193 | Every step keeps: each closed span is in exactly one place (dropped, waiting, running or finished), at most three wait, starts follow closing order, nothing waits that could run, what started stays started, and nothing starts while paused. |
| Pipeline.StepKeepsReads | app/src/core/index.ts:139-193 | Every step keeps: kept reads are exactly those buffered, expired and handed over, and no two kept in succession share app, title and text. |
| Pipeline.RunSound | app/src/core/index.ts:110-193 | After every run the accounts of spans and of reads, the bound, the order and the absence of repeats hold. |
| Pipeline.StartsStay | app/src/core/index.ts:110-193 | In every run what was started stays started, in its order, and no step that leaves the pipeline paused starts anything. |
| Pipeline.NothingOldAfterTick | app/src/core/index.ts:170-180 | After every tick of every run nothing waiting and nothing buffered is over sixty minutes old. |
| Pipeline.HandedInsideSpan | app/src/core/index.ts:116-120 | What a span is handed lies between its opening and its closing. |
| Pipeline.KeptIsNovel | app/src/core/index.ts:139-169 | Over every run, what is kept is exactly the reads brought in, taken from the events, without those under forty units and those equal in app, title and text to the one kept before them. |
| Pipeline.ReadsMove | app/src/core/index.ts:170-174 | What a tick does to the reads: the old expire, then a closing span is handed exactly the rest that lies inside it. |
| Pipeline.CaptureOffMoves | app/src/core/index.ts:188-192 | What switching capture off does to them. |
| Pipeline.ClosingIs | app/src/core/index.ts:116-129 | What a closing span does: a thin one is dropped under its number, else it waits last, the oldest of three being dropped for it, and the first in line starts if the model is free. |
| Pipeline.StaleIs | app/src/core/index.ts:175-178 | A tick drops exactly the waiting scenarios opened over sixty minutes ago, in order, and keeps the order of the others. |
| Pipeline.EndingIs | app/src/core/index.ts:110-114 | An extraction that ends is finished and the next in line starts unless the model is paused. |
| Pipeline.PausingIs | app/src/core/index.ts:186-187 | Pausing changes nothing else; resuming starts the first in line when nothing runs. |
| Pipeline.RunCounts | app/src/core/index.ts:116-193 | Over every run each closed span is numbered once and handed one list of reads, and the model is paused as last told, counted from the events. |
| Selection.SaturatedSize | app/src/core/digest.ts:44-65 | A saturated selection has the size of the room, or of the sum over targets of what the limit and the pool allow when that is less. |
| Selection.SaturatedIsLargest | app/src/core/digest.ts:44-65 | No selection within the caps is larger. |
| Selection.GreedyPrefers | app/src/core/digest.ts:50-63 | What the greedy loop passes over never gives way to something later in the list, unless its own target's limit was the reason. |
| Digest.Digest.List | app/src/core/digest.ts:44-65 | The loops with their counts per target, their break and their skip compute the two-phase greedy selection. |
| Digest.ViewIsSaturated | app/src/core/digest.ts:44-65 | The view is within both caps and nothing in the pool could still be added to it. |
| Digest.ViewSize | app/src/core/digest.ts:44-65 | Its size is min(room, sum over targets of min(2, pool items of that target)). |
| Digest.ViewIsLargest | app/src/core/digest.ts:44-65 | No selection the caps allow shows more. |
| Digest.ViewInOrder | app/src/core/digest.ts:50-65 | Carried items stand oldest first; then each round of today's, most specific first. |
| Digest.ViewOrderIs | app/src/core/digest.ts:50-56 | That order spelled out: carried items by time; in each round by number of content words, then time, then id. |
| Digest.ViewSizeIs | app/src/core/digest.ts:44-65 | The size in numbers: what is left of ten, or at most two of each target when that is less. |
| Digest.OldestCarriedShown | app/src/core/digest.ts:50-53 | No carried item is passed over for a younger one unless two of its target are shown, and those are no younger. |
| Digest.MostSpecificShown | app/src/core/digest.ts:54-64 | In either round no fresh item is passed over for one with fewer content words, unless its target has its share. |
| Digest.CarriedComeFirst | app/src/core/digest.ts:50-53 | The carried items are exactly a first part of the view. |
| Digest.SecondsComeLast | app/src/core/digest.ts:54-64 | A fresh item is shown as its target's second only when every target with a fresh item is shown already. |
| Digest.Digest.Add | app/src/core/digest.ts:68-82 | The loop merges the draft into the first match or adds it, as the specification function does, ids staying unique; the next row says when and how. |
| Digest.AddedIs | app/src/core/digest.ts:68-82 | For every draft: if no item of its target made today shares three fifths of the content words of the poorer of the two, the draft is added last; otherwise the first such item takes its statement if and only if that has more content words. |
| Digest.AddingKeepsItems | app/src/core/digest.ts:68-82 | A draft becomes one new item or replaces one statement with a richer one; ids, targets, times and places stay, and it is merged if and only if there is such an item. |
| Digest.Digest.Resolve | app/src/core/digest.ts:84-90 | Exactly what has the id goes, the others keeping their order, and the day's count grows by one if and only if there was something. |
| Digest.ResolvedIs | app/src/core/digest.ts:84-90 | The same of the function the runs are made of. |
| Digest.Digest.Tick | app/src/core/digest.ts:91-104 | Within the day exactly the items under three days old stay, in their order, and the count stays; on another day exactly what was shown and is under three days old, and the count starts again. Ids stay unique. |
| Digest.SameDayTick | app/src/core/digest.ts:91-104 | For all states and times, a tick within the day keeps exactly the items under three days old, in their order, and neither the day nor its count changes. |
| Digest.NewDayTick | app/src/core/digest.ts:94-104 | A tick into another day keeps exactly what was shown and is under three days old, in the pool's order, and the count starts again. |
| Digest.Digest.ImportPool | app/src/core/digest.ts:106-118 | Valid, live, new items are taken; accepted and rejected add up, ids staying unique. |
| Digest.ImportTakes | app/src/core/digest.ts:106-118 | What an import takes: exactly the elements that parse, are under three days old, have an id the pool has not, and are the first such with that id; they are added in their order. |
| Digest.RolloverKeepsShown | app/src/core/digest.ts:91-104 | After the tick into another day the pool is exactly what was shown, less what has expired. |
| Digest.RolloverLosesNothing | app/src/core/digest.ts:91-104 | Everything listed just before that tick is listed just after it unless it expired, and the whole surviving pool is listed. |
| Digest.NothingExpiredAfterTick | app/src/core/digest.ts:91-104 | Nothing three days old or older survives a tick. |
| Digest.RunKeeps | app/src/core/digest.ts:44-118 | In every run ids stay unique and at most ten are resolved in a day, when only listed ids are resolved. |
| Digest.TenADay | app/src/core/digest.ts:44-118 | In every such run what was resolved today and what is shown never exceed ten, and no target shows more than two. |
| Digest.TodayIsLastTicks | app/src/core/digest.ts:91-100 | The digest's day is that of the last tick. |
| Digest.TenResolvesADay | app/src/core/digest.ts:84-104 | Counted from the events: between two changes of day at most ten resolves find something, and what is shown fits into what they leave of ten. |
| DailyLimit.StepUses | app/src/main/engine.ts:710-750 | What is resolved today plus what the decisions in flight will resolve grows by one when a decision begins, and never otherwise. |
| DailyLimit.StepIs | app/src/main/engine.ts:710-750 | Every step is one of the digest's own, or none: a decision begins on a listed id nobody is deciding and ends by resolving or giving up; an import waits for none to be in flight. |
| DailyLimit.WithinTenIff | app/src/main/engine.ts:710-750 | However the decisions in flight end, at most ten are resolved in the day if and only if that use is at most ten. |
| DailyLimit.TenADayIff | app/src/main/engine.ts:710-750 | The exact condition over every run: the use stays within ten if and only if no decision begins with ten resolved or in flight. |
| DailyLimit.AllListedMeansRoom | app/src/main/engine.ts:716 | While everything being decided is still listed, a decision that begins has room. |
| DailyLimit.ElevenInADay | app/src/main/engine.ts:710-750 | The failing run: ten decisions in flight, a richer statement takes the place of one in the list and is decided too, and eleven are resolved. |
| Record.Kept.Begin | app/src/main/settings.ts:85-90 | The next record is built from the current one before the wait. |
| Record.Kept.Finish | app/src/main/settings.ts:90-92 | The oldest write ends: it becomes current, or on failure nothing changes. |
| Record.SerialUpdatesCompose | app/src/main/settings.ts:85-95 | Updates that wait for one another leave the changes that were written, composed in order. |
| Record.OverlappingUpdatesLoseAllButLast | app/src/main/settings.ts:85-95 | Updates that overlap leave only the last one, applied to what was current when they began. |
| Record.OverlapKeepsBothIff | app/src/main/settings.ts:85-95 | Two overlapping updates come to the same as one after the other if and only if the second makes the first no difference. |
| Record.CurrentIsLatest | app/src/main/settings.ts:85-95 | After any beginnings and ends, good or bad, in any order, the current record is what the last write that succeeded wrote, and each write in flight is what its step began. |
| Record.LatestMovesOn | app/src/main/storage/jsonFile.ts:32-39 | Writes succeed in the order they were begun. |
| CaptureOwner.EngineObject.DoEvaluate | app/src/main/engine.ts:372-393 | The loop runs afterwards if and only if it is wanted and was running or agreed to start. |
| CaptureOwner.EngineObject.SetUser | app/src/main/engine.ts:596 | A sign-in or sign-out evaluates; one account replacing another does not by itself. |
| CaptureOwner.EngineObject.ContinueSignIn | app/src/main/engine.ts:486-505 | The loop stops when the pool was another account's, and the pool is this account's now. |
| CaptureOwner.EngineObject.BeginEnsureOwner | app/src/main/engine.ts:433-449 | Ownerless settings are adopted with the switch off, another account's are reset, one's own are left. |
| CaptureOwner.EngineObject.BeginSetCapture | app/src/main/engine.ts:664-679 | The switch is refused exactly when something blocks, the owner is pending or the permission unknown, and only for turning on; a refusal changes nothing. |
| CaptureOwner.EngineObject.BeginUpdateSettings | app/src/main/engine.ts:770-778 | Unless the engine has stopped, one write begins behind those in flight: the current record with the new choices. The current record stays as it is until the write ends. |
| CaptureOwner.EngineObject.BeginInstallFacts | app/src/main/engine.ts:779-787 | The self-test's result: one write begins, the current record with these facts. |
| CaptureOwner.EngineObject.BeginPromptDay | app/src/main/engine.ts:555 | The handled day: one write begins, the current record with this day. |
| CaptureOwner.EngineObject.Pause | app/src/main/engine.ts:680-687 | Pausing needs capture to be on. |
| CaptureOwner.EngineObject.NotePermission | app/src/main/engine.ts:527-550 | An unknown answer never replaces a real one. |
| CaptureOwner.EngineObject.EndWrite | app/src/main/settings.ts:90-92 | The oldest settings write ends, well or badly. |
| CaptureOwner.StepKeepsOwnership | app/src/main/engine.ts:411-449 | Every step keeps: each settings record, current or on its way to the disk, that names an owner and has capture on was switched on by that owner. |
| CaptureOwner.RunKeepsOwnership | app/src/main/engine.ts:411-449 | So does every interleaving. |
| CaptureOwner.RunningForWhoSwitchedOn | app/src/main/engine.ts:344-393 | After every interleaving, an evaluation that leaves the loop running leaves it running for the signed-in account that owns the settings and itself switched capture on, with nothing blocking and nothing paused. |
| CaptureOwner.OnlyEvaluationStarts | app/src/main/engine.ts:328-393 | No other step starts the loop. |
| CaptureOwner.RunningIff | app/src/main/engine.ts:372-393 | After a step that evaluates the loop runs if and only if every condition holds, spelled out, and it was running or agreed to start; after a sign-in's continuation, if the pool is nobody else's; after any other step as before. |
| CaptureOwner.FieldsAfter | app/src/main/engine.ts:527-550 | What each step leaves in the other fields; an unknown permission never replaces a real one. |
| CaptureOwner.OnMeansClicked | app/src/main/engine.ts:664-679 | Capture is on for a user in some record only if it was at the start or that user, signed in, had a switch-on accepted since. |
| CaptureOwner.OffStaysOff | app/src/main/engine.ts:664-679 | Once no record says on, only an accepted switch-on makes one say so, and every step that ends in an evaluation, sign-ins and sign-outs among them, leaves the loop off. |
| CaptureOwner.OffStaysOffThroughout | app/src/main/engine.ts:664-679 | So it is over every run without an accepted switch-on. |
| CaptureOwner.RecordsTold | app/src/main/settings.ts:85-95 | After every run, each record, current or in flight, is told by the event its write comes from: its choices are the update's, or the defaults for an account that took over another's record, or those current when the write began; and so for its owner, its switch, its prompt day and its install facts. |
| CaptureOwner.StepWrites | app/src/main/engine.ts:664-787 | When a step begins a write, spelled out for each event, and that the write is so told; every other step but the end of a write leaves the settings alone. |
| CaptureOwner.TrailTold | app/src/main/settings.ts:85-95 | Which write each record comes from, told by the events: a step that begins a write queues it last, an end takes the oldest, and makes it current if it succeeded. |
| CaptureOwner.RecordsSayOn | app/src/main/settings.ts:85-95 | Hence after every run a record, current or in flight, says on if and only if the write it comes from was a switch-on or carried the switch from a record that said on. |
| CaptureOwner.ChoicesInForce | app/src/main/engine.ts:770-778 | In every run the choices in force are those last saved, followed back through every record that was copied on the way. |
| CaptureOwner.SavedChoicesInForce | app/src/main/engine.ts:770-778 | An update saved while nothing else is being written is in force, and changes nothing else. |
| CaptureOwner.OffForGoodIff | app/src/main/engine.ts:664-679 | The exact condition, on the state alone: capture is off in every run to come without an accepted switch-on if and only if nothing says on now, in memory or on its way to the disk. |
| CaptureOwner.SwitchOffLandsForGoodIff | app/src/main/settings.ts:85-95 | The moment a switch-off reaches the record: it is off for good in that sense if and only if no update in flight behind it says on. |
| CaptureOwner.AllOffTraced | app/src/main/settings.ts:85-95 | That nothing says on, told by what began each write. |
| CaptureOwner.SwitchOffLastsIff | app/src/main/settings.ts:85-95 | The same over one given run, with writes in flight before, ends in between and failures: it is off throughout if and only if no update begun while the record said on succeeds. |
| CaptureOwner.SwitchedOffYetRunning | app/src/main/engine.ts:664-679 | The failing run: a settings change begun while the switch-off is being saved brings capture back on. |
| Decisions.Desk.BeginApprove | app/src/main/engine.ts:710-722 | An approve is taken if and only if the id is not being decided and is listed; what is queued is the item as listed; an id already in the outbox is not written again. |
| Decisions.Desk.EndWrite | app/src/main/review/uploader.ts:133-140 | The oldest outbox write ends: an approve goes on, or gives up with the statement still pending. |
| Decisions.Desk.ResolveApproved | app/src/main/engine.ts:729-732 | The statement leaves the pool after it is in the outbox. |
| Decisions.Desk.BeginReject | app/src/main/engine.ts:737-743 | A reject is taken if and only if the id is not being decided and is listed, and takes the statement out of the pool. |
| Decisions.Desk.Release | app/src/main/engine.ts:731-735 | The lock is released at the end. |
| Decisions.TakenIff | app/src/main/engine.ts:710-743 | An approve or a reject is taken if and only if the statement is listed and in the pool and nobody is deciding it. |
| Decisions.HeldIsHeld | app/src/main/engine.ts:710-743 | While somebody decides an id, another decision on it changes nothing at all. |
| Decisions.TakenAs | app/src/main/engine.ts:716-743 | A taken reject is rejected at once; a taken approve waits for its write, or goes on when the outbox has the id. |
| Decisions.EndedIs | app/src/main/engine.ts:722-735 | When an approve's write ends it goes on or gives up, and nobody else is touched. |
| Decisions.FailedMayBeDecidedAgain | app/src/main/engine.ts:731-735 | After a failed outbox write and its release, nothing but the lock has changed and the listed statement may be decided again. |
| Decisions.AlwaysReleased | app/src/main/engine.ts:731-735 | No lock is held for good: after every run, whoever holds an id has let go of it once the writes in flight have ended, each well or badly, and the holder has gone on. |
| Decisions.Desk.BeginSettle | app/src/main/review/uploader.ts:93-95 | A send that has its answer writes the outbox without what is done. |
| Decisions.Desk.BeginAdopt | app/src/main/review/uploader.ts:149-154 | The outbox becomes the signed-in account's, and another account's items are not kept. |
| Decisions.OutboxWrites | app/src/main/review/uploader.ts:133-154 | When a step begins a write of the outbox and what it holds: the listed statement added last, exactly what was not sent, or nothing of another account's. |
| Decisions.PoolAfter | app/src/main/engine.ts:710-750 | What each step leaves in the pool. |
| Decisions.StepKeepsId | app/src/main/engine.ts:710-750 | Every step keeps each id's story: put in the outbox since launch and still in the pool only while its approve is at that point; while an approve of it is being written, and until that approve resolves it, it is in the pool unless the digest or an account switch removed it; it is never both put and rejected. |
| Decisions.StepKeepsSound | app/src/main/engine.ts:710-750 | Every step keeps that for all ids, each write in flight has its lock holder, and the outbox holds only what was loaded or put there. |
| Decisions.LaunchIsSound | app/src/main/engine.ts:710-750 | A run begins sound with any loaded pool and outbox, a crash's leftovers included. |
| Decisions.RunSound | app/src/main/engine.ts:710-750 | So does every interleaving. |
| Decisions.EachDecidedOnce | app/src/main/engine.ts:229-238 | In every interleaving each id is put in the outbox at most once and never also rejected, and from the beginning of an approve until it resolves its statement is in the pool, unless the digest or an account switch removed it. |
| Decisions.RejectedIff | app/src/main/engine.ts:737-743 | An id is rejected after a run if and only if a reject of it was taken. |
| Decisions.PutAndRejectedIff | app/src/main/engine.ts:717 | For every loaded pool and outbox: an id is both in an outbox, loaded or put there since, and rejected if and only if it was loaded in both and a reject of it was taken. |
| Decisions.LeftoverRejectedYetSent | app/src/main/engine.ts:717 | The failing run: a statement a crash left in both is rejected, leaves the pool, and is sent. |
| Decisions.QueuedAsListed | app/src/main/engine.ts:716-722 | What is queued is the statement as it was listed when its approve began, whatever was merged into it since. |
| Decisions.SerialRunsLoseNothing | app/src/main/review/uploader.ts:133-154 | When outbox writes wait for one another, everything loaded or approved is in the outbox until it is sent or discarded for another account. |
| Decisions.ResolvedStaysIff | app/src/main/engine.ts:729-730 | Where a statement is once its approve has taken it out of the pool: in the outbox, sent or discarded, in every run to come, if and only if at that moment the outbox and every write in flight hold it, but for writes that are to take it out. |
| Decisions.AccountedForGoodIff | app/src/main/review/uploader.ts:133-154 | The same exact condition at any moment, on the state alone. |
| Decisions.ApprovedStaysIff | app/src/main/review/uploader.ts:133-140 | A statement stays in the outbox through every run to come that neither sends it nor clears the outbox, if and only if the outbox and every write in flight hold it now. |
| Decisions.HeldTraced | app/src/main/review/uploader.ts:133-140 | Over one given run: the outbox holds an id if and only if the last write that succeeded was begun by its own approve, or while the outbox held it and not to take it out. |
| Decisions.OverlappingApprovesLoseOne | app/src/main/engine.ts:717-732 | The failing run: of two statements approved while the first is still being written, both approves succeed and both leave the pool, and the first is in no outbox and was never sent. |
| OutboxOwner.Accounts.ContinueSignIn | app/src/main/engine.ts:494-495 | After a sign-in the pool is the signed-in account's. |
| OutboxOwner.Accounts.BeginAdopt | app/src/main/review/uploader.ts:149-157 | The outbox is stamped with the signed-in account, without another account's items, and the answer is how many those are. |
| OutboxOwner.Accounts.BeginEnqueue | app/src/main/review/uploader.ts:133-140 | An approved statement is written under the stamp the outbox has, else under the signed-in account. |
| OutboxOwner.Accounts.BeginSend | app/src/main/review/uploader.ts:65-75 | A batch is submitted only while the outbox is stamped with the signed-in account. |
| OutboxOwner.StepWrites | app/src/main/review/uploader.ts:133-157 | When a step begins a write and what it holds: an approve last under the stamp there is or else the account signed in, an adoption with the items unless they are another's, and exactly what was not settled. |
| OutboxOwner.SubmitIs | app/src/main/review/uploader.ts:65-75 | A send submits the whole outbox as the account signed in if and only if the outbox is stamped with it. |
| OutboxOwner.FieldsAfter | app/src/main/engine.ts:494-496 | Who is signed in, whose the pool is and what was submitted change by their own steps only. |
| OutboxOwner.StepRightIff | app/src/main/review/uploader.ts:133-157 | A step keeps every statement in its own account's outbox if and only if it is no approve under another account's stamp. |
| OutboxOwner.OwnOutboxIff | app/src/main/review/uploader.ts:27-29 | The exact condition over every run: every statement stays in the outbox of the account whose pool it was approved from, in memory and in flight, if and only if every approve is begun while the stamp it writes is that account. |
| OutboxOwner.SentToTheirOwn | app/src/main/review/uploader.ts:65-75 | Under that condition no statement is ever sent as another account. |
| OutboxOwner.HandoverFits | app/src/main/engine.ts:494-496 | After a sign-in that goes through with nothing else being written the condition holds. |
| OutboxOwner.ApprovedUnderOther | app/src/main/engine.ts:457-465 | The failing run: an adoption the disk refuses, then an approve, which is stamped with the other account. |
| OutboxOwner.SentAsOtherOrDiscarded | app/src/main/review/uploader.ts:65-75 | From there the statement is sent as the other account when that one signs in, and discarded when the adoption succeeds first. |

## Left out

Parameters instead of models:

- Unicode tables: NFC, lowercasing and squashing white space in `norm` and `squashed` are function parameters; the twin, Latin and white-space classes are written out.
- The tokenizer and filler words (`contentWords`), the clock's day key and `localeCompare` are parameters of the digest; the collation is a rank of ids.
- The segmenter, `compact`, the gates before `ingest` and the scrubbing: spans and scrubbed reads arrive as events; extraction and the guard are the end of an extraction.
- The session, the permission, the other blockers and whether the loop agrees to start are events or parameters of the engine; a settings patch the store refuses is no event. That a quit engine, a signed-out user or an unlisted id refuses a decision is one parameter, `listed`.
- The schema of an imported item: an element is the item it parses to, or nothing.
- The regular expression engine: the GVariant pattern is a scanner, proved to find the one body there can be.

Arithmetic and representation:

- Score.Accuracy: floating point is modelled by reals, so rounding is not covered; the digest's overlap threshold of 0.6 is compared in whole numbers.
- TextLines.Order: coordinates are reals, so a coordinate that is not a number is not covered.
- TextLines.GutterMarks: prefix lengths are counted in characters, where the source counts bytes to cut at the same place.
- FocusGate.FocusGate.Poll: a title is its hash, and nothing is claimed about distinct titles hashing apart; times are nanoseconds from some start.
- LineSplitter.LineSplitter.Push: takes decoded text; the byte decoder is not part of this model.
- Digest.Digest.Add: the kind and version fields of a statement are not modelled, and a new id is taken to be new.
- Frame.GeometryTakesPart: needs rows that fold alike; equal bytes cut into rows that are not whole words fold differently, and nothing is claimed about their hashes.
- Pipeline.Pipeline.CloseSpan: the counters of the original are kept as lists of what they count.

Behaviour of the modelled files that is not modelled:

- `reset`, `deleteAllData`, draining at quit, notices, logging, power and timers in the engine; they sequence effects around the steps modelled.
- CaptureOwner.EngineObject.SetUser: when one account replaces another directly, the loop is stopped by the continuation of the sign-in and not before it; the turn between the two is a state of the model and the ownership theorem speaks of evaluations.
- Decisions.SerialRunsLoseNothing: `clear`, which empties the outbox when all data is deleted, is not a step.
- OutboxOwner.Accounts.BeginEnqueue: any id may be approved; the list, the lock and the pool's contents are in `Decisions`.
- The uploader's backoff and network answers; a send is the outbox write that ends it, and `resave`, which changes no record, is left out.
- Digest.TenADay: takes a listed id to be resolved at once; `DailyLimit` says what becomes of the limit when it is not.
- Digest.RunKeeps: takes the same.
- `clear`, `size` and `oldestAt` of the buffer, `whenIdle`, `configure` and the counters of the pipeline.
- `accents`, `between` and `markerHits` of the scorer, `is_black` of the frame, `gdbusString` and the extension's own state: they would add only easy members.
- Sending to the helper, its exit and its pipes.

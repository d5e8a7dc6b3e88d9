# musicpack-core, modelled and proved

A Dafny model of the deterministic kernels of `musicpack-core`: exact number printing, the JSON
parser and its two printers, the player and its queue, the streaming loudness and waveform
analysers, the LRC lyrics parser, and two encodings. `dafny verify dfyconfig.toml` checks it.

Code that changes state step by step is a class or a method with loops, and its contract ties the
new state to a specification function; the results are lemmas about those functions, for all
inputs, all runs, or all ways of cutting a stream. Each main operation also has a reference apart
from its specification function: the form of a printed number, the JSON grammar, the filter's
difference equation, the oversampled stream, the album's exact sums, a document's raw tokens.

| area | files |
|---|---|
| numbers | `Arith`, `BigNum`, `Number`, `NumberText`, `NumberForm`, `NumberResults`, `JsonNumber`, `NumberStable`, `NumberSlip` |
| JSON and snapshots | `Json`, `JsonEscapes`, `JsonGrammar`, `JsonPrint`, `JsonPrinter`, `JsonLayout`, `JsonResults`, `JsonStable`, `Shortest`, `Snapshot` |
| queue and player | `Floats`, `Order`, `OrderUniform`, `QueueSpec`, `QueueModel`, `QueueEdits`, `QueueResults`, `PlayerSpec`, `Player`, `PlayerResults`, `PlayerBoundary`, `PlayerQueue`, `PlayerSeek`, `PlayerTransport`, `PlayerFades` |
| analysers | `Samples`, `Waveform`, `WaveformResults`, `Loudness`, `LoudnessResults`, `Interpolator`, `InterpolatorResults` |
| lyrics | `LyricsText`, `Lyrics`, `LyricsResults`, `LyricsStrip`, `LyricsMetadata`, `LyricsDocument`, `LyricsErrors`, `Sorting` |
| encodings | `Identity`, `IdentityResults`, `SourceUrl`, `SourceUtf8` |

How the model reads the source:

- A finite double is its bit fields, so its value is an exact real. Where only class and value
  matter (hints, positions, random values) it is NaN, an infinity or a real; rounding and signed
  zero are left out there.
- Text is a sequence of Unicode scalar values where the source decodes UTF-8 (JSON, lyrics), and a
  sequence of bytes where it works on bytes (identity, source URLs). Lyrics sizes are counted in
  UTF-8 bytes.
- The engine, the resolver, the transition planner and the random source are inputs: each player
  operation takes the answers its calls would return, one for each call site, and the theorems hold
  for all of them.
- Parsing and shortest printing of doubles by the standard library are parameters, and what they
  promise is a hypothesis where it is needed: printing gives at most 17 significant digits near the
  number, without an exponent (`Shortest.ShowsShortest`), which parse back to the same bits
  (`Shortest.ReadsOwn`); parsing gives a nearest double (`NumberStable.Correct`).
- The logarithmic quantizer, square root, the filter's coefficients, the windowed-sinc taps and the
  narrowing to single precision are parameters.
- The port's engine calls return at once, so no other operation runs between a call and its return;
  the re-checks of a counter around such a call cannot fail and are not repeated in the model. The
  checks that guard a fade's completion, which does come later, are modelled.

Where code and documentation disagree the code is followed. The snapshot comment says a payload
with duplicate keys is rejected; it is not, and the first one counts (`Snapshot.RepeatedKeyIgnored`).
The source-key tests promise a round trip; it is exact only for ASCII containers
(`SourceUrl.RoundTripIff`). `set_all` leaves history and order behind, so a restore into a used
queue can break its invariant (`PlayerQueue.RestoreKeepsIff`), and two short runs show it: one
leaves history past the queue's end (`PlayerQueue.RestoreBreaks`), the other moves the cursor out
of the queue, so that nothing is current (`PlayerQueue.RestoreLosesCursor`).

Three laws a reader would expect fail, and the exact condition is proved.

- A saved session is not always restored. The snapshot's numbers are written without an exponent,
  and one of more than 63 characters is cut by the parser, so the whole snapshot is lost
  (`Snapshot.TextRoundTrip`). Zero and magnitudes from 2e-44 to 5e61 are safe; any from 2e63 on, or
  positive and at most 5e-62, loses it (`Shortest.MagnitudesDecide`, `Snapshot.HugeVolumeLost`).
- Canonical text is not always a fixed point of printing after parsing. A number from 1e8 on that
  is not whole prints with an exponent, comes back whole and then prints as an integer; and a
  subnormal that prints as a power of ten can come back below it (`JsonStable.CanonicalFixedPoint`,
  `JsonStable.FractionChangesText`, `NumberSlip.SlippingDiffers`).
- Removing word tags twice can remove more than removing them once (`LyricsStrip.StripTwiceIff`).

## Model

| member | source | states |
|---|---|---|
| BigNum.Big.FromU64 | src/format/number.rs:248-250 | the limbs denote the given 64-bit number, least significant first |
| BigNum.Big.ShlBits | src/format/number.rs:252-276 | the value is multiplied by two to the shift, with no limb overflow |
| BigNum.Big.MulSmall | src/format/number.rs:278-288 | the value is multiplied by a 32-bit factor; every intermediate product fits 64 bits |
| BigNum.Big.MulPow5 | src/format/number.rs:290-300 | the value is multiplied by five to the given power |
| BigNum.Big.ToDecimal | src/format/number.rs:302-338 | the digits denote the value exactly, with no leading zero; repeated division terminates because the value shrinks |
| BigNum.DivmodSmall | src/format/number.rs:341-349 | in place, the limbs become the quotient and the remainder is returned: value = quotient * divisor + remainder |
| BigNum.Groups | src/format/number.rs:302-316 | the base-10^9 groups, little-endian, denote the value |
| BigNum.PaddedGroup | src/format/number.rs:322-338 | nine digits with leading zeros that denote the group |
| BigNum.TopGroup | src/format/number.rs:317-330 | the top group's digits without leading zeros, at least one |
| Number.ExactDigits | src/format/number.rs:176-196 | the digits and exponent of the exact expansion of m * 2^e2 |
| Number.ExactDigitsDenote | src/format/number.rs:176-196 | those digits, read at that exponent, are m * 2^e2 exactly, and the first is not zero |
| Number.DecimalDigitsUnique | src/format/number.rs:302-338 | a number has one digit string without a leading zero, so the expansion is determined by the value |
| Number.RoundHalfEvenNearest | src/format/number.rs:198-241 | the rounded quotient is a nearest multiple, and even when two are equally near |
| Number.RoundsUp | src/format/number.rs:203-218 | the digit test decides exactly whether rounding half to even adds one to the kept digits |
| Number.RoundTo | src/format/number.rs:198-241 | the carry loop computes exactly rounding half to even to p digits, including the all-nines carry that raises the exponent |
| Number.Increment | src/format/number.rs:220-241 | the digits read one more than before, and the carry leaves the front exactly when all were nines |
| Number.RoundedRange | src/format/number.rs:198-241 | a rounded quotient keeps p digits or is the next power of ten |
| NumberText.FormatGPrecision | src/format/number.rs:65-171 | the pushed and popped text is the specified layout of the rounded digits |
| NumberText.LayoutDigits | src/format/number.rs:95-171 | both layouts, with and without exponent, are built digit by digit as specified |
| NumberText.StripDenotes | src/format/number.rs:65-171 | removing trailing zeros does not change the number denoted |
| NumberText.FormatGTrimmed | src/format/number.rs:65-171 | no printed number has a fraction that ends in zero |
| NumberText.RoundedDigits | src/format/number.rs:65-171 | the layout without exponent always has a digit for every integer place |
| NumberText.LayoutReads | src/format/number.rs:65-171 | an independent reader of decimal texts reads the laid-out text back as its digits and exponent |
| NumberText.FormatGReads | src/format/number.rs:65-171 | the printed text, sign included, reads back as the rounded number |
| NumberForm.FormatGForm | src/format/number.rs:65-171 | on the characters and the number they denote: an exponent exactly below 1e-4 or from 10^p on, with one sign, at least two digits and no needless zero, after one digit that is not zero; elsewhere no needless leading or trailing zero |
| NumberForm.FormatGOnly | src/format/number.rs:65-171 | form and number leave one text: a text of that form that denotes what is printed is what is printed |
| NumberResults.FormatGNearest | src/format/number.rs:65-241 | for every finite double and precision, no number with at most p significant digits, of any exponent, is nearer to the double than the printed text |
| NumberResults.FormatGTiesToEven | src/format/number.rs:198-241 | when another p-digit number is equally near, the printed one has an even last digit |
| NumberResults.FormatGMonotone | src/format/number.rs:65-241 | a larger double never prints as a smaller number |
| JsonNumber.FormatJsonNumber | src/format/number.rs:39-54 | integral values inside the gate print as whole numbers, others with eight significant digits |
| NumberForm.PrintsAsIntegerIff | src/format/number.rs:39-54 | a double is printed in full exactly when its value is whole and within 9.2e18 of zero |
| NumberForm.WholeNumberForm | src/format/number.rs:39-54 | its text is then digits after an optional minus sign, with no needless zero |
| JsonNumber.WholeNumberReads | src/format/number.rs:39-54 | a whole number's text denotes its value exactly |
| NumberStable.PrintsSameIff | src/format/number.rs:39-171 | with correctly rounded conversion, the double a number's text converts to prints the same text exactly when the number prints as an integer, or it neither prints with an exponent of at least 8 inside the integer gate nor slips below a power of ten |
| NumberStable.NormalSameIff | src/format/number.rs:39-171 | for a normal double: exactly when it prints as an integer or without such an exponent |
| NumberStable.SlipsSubnormal | src/format/number.rs:65-171 | only subnormals slip: elsewhere a nearest double is closer than the last of eight digits |
| NumberStable.FractionDiffers | src/format/number.rs:39-54 | no number from 1e8 on that is not whole prints the same again |
| NumberSlip.SlippingDiffers | src/format/number.rs:65-171 | some subnormal does slip: 20240226 * 2^-1074 prints 1e-316 and comes back as a double that prints otherwise, whichever nearest double is chosen |
| JsonNumber.JsonNumberIsToken | src/format/number.rs:39-54 | every finite double prints as one number token shorter than the 63 bytes the parser reads |
| JsonNumber.StrtodScan | src/json.rs:454-496 | the scan's loops return the specified length |
| JsonNumber.SkipExponent | src/json.rs:454-496 | an exponent is consumed exactly when it has a digit |
| JsonNumber.SkipDigits | src/json.rs:454-496 | the loop stops at the end of the digit run |
| JsonNumber.ScanIsNumber | src/json.rs:454-496 | a non-empty scan matches the number grammar |
| JsonNumber.ScanIsLongest | src/json.rs:454-496 | every prefix that matches the grammar is no longer than the scan: the greedy scan is maximal, and is empty only if no prefix matches |
| Json.Parser.ParseValue | src/json.rs:201-222 | on success the value and the remaining text are the specified ones, the position advances and the depth is restored; it fails exactly when the specification does |
| Json.Parser.ParseArray | src/json.rs:224-251 | as for values; the nesting limit of 1000 is enforced on entry |
| Json.Parser.ParseObject | src/json.rs:253-290 | as for arrays, members in order with repetitions kept |
| Json.Parser.ParseString | src/json.rs:292-425 | the string read stops at the first NUL, as the C parser's did; escapes and surrogate pairs are decoded |
| Json.DecodeLiteral | src/json.rs:330-418 | the escape loop computes the decoded text, or fails on a bad escape |
| JsonEscapes.StringReadIff | src/json.rs:292-425 | a string is read as a text exactly when its literal is a writing of that text, up to the first NUL: each character plain, by one of eight short escapes, or by its UTF-16 code units in hexadecimal digits of either case |
| JsonEscapes.WrittenDocument | src/json.rs:147-173 | every writing of a text, in quotes, is a document that parses to it |
| JsonEscapes.WritingDetermines | src/json.rs:292-425 | no two texts share a writing |
| JsonEscapes.EscapeRefusedIff | src/json.rs:330-418 | a `\u` escape is refused exactly when a digit is bad or missing, a low surrogate comes first, or a high one is not followed by a low one |
| JsonEscapes.RefusedAfter | src/json.rs:330-418 | a refused escape refuses its literal, after any well-written beginning |
| Json.Parser.NumberRun | src/json.rs:427-440 | the number run is the longest prefix of number characters, cut at 63 |
| Json.Parser.ParseNumber | src/json.rs:427-452 | exactly the longest number prefix of that run is consumed; it fails when there is none |
| Json.Parse | src/json.rs:147-173 | the whole text is one value between white space |
| JsonGrammar.ValueIff | src/json.rs:201-290 | a value is read from the start of a text, and the rest left, exactly when the grammar has that value there: white space around every token, longest numbers, nesting within the limit |
| JsonGrammar.DocumentIff | src/json.rs:147-173 | a text is accepted exactly when it is an optional byte-order mark, white space, one value of the grammar and white space, and as that value |
| JsonPrinter.PushString | src/json.rs:518-532 | the escaped text of each character is pushed in order |
| JsonPrinter.PrintValue | src/json.rs:534-580 | the recursive pushes build the specified canonical text at every depth |
| JsonPrinter.PrintCanonical | src/json.rs:505-510 | the canonical text with its final line feed |
| JsonLayout.CanonicalLaid | src/json.rs:505-580 | on the characters: a line starts after every opening bracket and comma, indented by two blanks for each open bracket; a closing bracket is on its own line or directly after its opening one; one blank follows a colon; there is no other white space outside strings but the final line feed |
| JsonLayout.CanonicalEscapes | src/json.rs:518-532 | a quote and a backslash take two characters, a control character six, any other is written as it is |
| JsonLayout.EscapeIsSpelling | src/json.rs:518-532 | what either printer writes for a character is one of its writings |
| JsonLayout.CompactShortest | src/player/snapshot.rs:191-207 | the compact writer's is the shortest without raw control characters |
| JsonPrinter.WriteValue | src/player/snapshot.rs:154-189 | the compact writer builds the specified compact text |
| JsonPrint.StringBack | src/json.rs:292-425 | an escaped string parses back to itself, up to its first NUL |
| JsonPrint.NumberBack | src/json.rs:427-452 | a number token of at most 63 characters parses back whole, whatever separator follows |
| JsonPrint.LongNumber | src/json.rs:427-452 | a longer one is cut: the parse fails or stops in front of more of the number, so its container fails |
| JsonPrint.ValueBack | src/json.rs:201-290 | printing any value and parsing it, in any context and at any depth, gives the value read back or fails as specified, and leaves the following text |
| JsonResults.AcceptedIff | src/json.rs:201-290 | printed text is accepted exactly when nesting is within 1000 and every number is readable: its text is at most 63 characters, or it is not finite and the compact writer put null |
| JsonResults.UnchangedIff | src/json.rs:201-290 | an accepted value comes back equal exactly when it is NUL-free and each number's text converts back to an equal number, for any comparison of numbers |
| JsonResults.CanonicalRoundTrip | src/json.rs:505-580 | for every value, parse(print(v)) equals v exactly when nesting is at most 1000, no string or key has a NUL and every number survives, by value or by its bits; order and repeated keys are kept |
| JsonResults.CompactRoundTrip | src/player/snapshot.rs:154-207 | the same for the snapshot's compact writer, for every value and every way to show numbers: accepted exactly when nesting is at most 1000 and no finite number's text exceeds 63 characters; equal exactly when it is NUL-free and its numbers survive as well |
| JsonResults.WholeNumbersKept | src/format/number.rs:39-54 | whole numbers inside the integer gate survive canonical printing by value, and with their bits exactly when not negative zero |
| JsonStable.FixedPointIff | src/json.rs:505-580 | parsing canonical text and printing it again gives the same text exactly when nesting is at most 1000, no string or key has a NUL and every number is finite and prints the same text again; for any conversion of numbers |
| JsonStable.CanonicalFixedPoint | src/json.rs:505-580 | with correctly rounded conversion the numbers' part is the condition of `NumberStable.PrintsSameIff` |
| JsonStable.FractionChangesText | src/json.rs:505-580 | one number from 1e8 on that is not whole is an input that fails |
| Shortest.ModerateReadable | src/player/snapshot.rs:154-164 | a number that is zero or of magnitude 2e-44 to 5e61 is written with at most 63 characters |
| Shortest.ExtremeUnreadable | src/player/snapshot.rs:154-164 | one of magnitude 2e63 or more, or positive and at most 5e-62, is written with more |
| Shortest.ShortestRoundTrip | src/player/snapshot.rs:154-207 | compact text is accepted exactly when nesting is at most 1000 and no number's text exceeds 63 characters, and gives the same value exactly when in addition no string has a NUL and every number is finite |
| Shortest.MagnitudesDecide | src/player/snapshot.rs:154-207 | by magnitudes alone: such safe numbers make every NUL-free value within the nesting limit come back, and one extreme number anywhere in it loses the whole value |
| Shortest.HugeNumberRejected | src/player/snapshot.rs:154-164 | an extreme number alone is written as a text that the parser rejects |
| Shortest.WholeNumbersCompact | src/player/snapshot.rs:154-164 | every whole number keeps its bits if read; one up to 1e61 is read, one from 2e63 on is not |
| Snapshot.EncodeMembers | src/player/snapshot.rs:123-151 | the pushed members are the specified ones, optional ones only when present |
| Snapshot.SavedTexts | src/player/snapshot.rs:123-151 | what stands under each key, with the texts of the modes |
| Snapshot.DecodeEncoded | src/player/snapshot.rs:74-151 | decoding an encoded session gives its normal form, whatever its 64-bit index: restorable items, clamped index, offered crossfade |
| Snapshot.NormalIff | src/player/snapshot.rs:74-121 | a session is its own normal form exactly when all its items restore, its index is in range and its crossfade is offered or zero |
| Snapshot.TextRoundTrip | src/player/snapshot.rs:74-207 | for every session, what the encoder writes is read back exactly when its items nest at most 998 deep and no number of it is cut, else the decoder gives nothing; it is read back unchanged exactly when it is also NUL-free with finite numbers, and then it comes back normalized |
| Snapshot.ModerateSessionKept | src/player/snapshot.rs:74-207 | a NUL-free session within the nesting limit whose numbers are all of safe magnitude is saved and restored |
| Snapshot.ExtremeSessionLost | src/player/snapshot.rs:74-207 | a session with one extreme number, in an item or of its own, is written and not restored |
| Snapshot.HugeVolumeLost | src/player/snapshot.rs:74-164 | in particular a session with a volume of at least 2e63, or positive and at most 5e-62 |
| Snapshot.RepeatedKeyIgnored | src/player/snapshot.rs:12-15 | a key repeated anywhere after its first occurrence is neither rejected nor preferred: the first one counts (the comment there says otherwise) |
| Snapshot.RepeatedKeyAccepted | src/player/snapshot.rs:74-82 | and so through text: the object with the repetition gives what the object without it gives, accepted or not, whenever the repeated value itself can be read |
| Snapshot.ClampIndex | src/player/snapshot.rs:54-59 | the floor of the index when in range, else the nearest end, for every double; NaN gives zero |
| Order.ShuffleOrder | src/player/order.rs:18-36 | the in-place swaps compute the specified shuffle and draw one random value for each slot but one |
| Order.ShuffledPermutes | src/player/order.rs:18-36 | the shuffle is a permutation whatever the random source returns, NaN, infinities and negatives included |
| OrderUniform.PickIff | src/player/order.rs:18-36 | a value in [0, 1) picks slot j of i + 1 exactly from the j-th of as many equal parts |
| OrderUniform.PickOutside | src/player/order.rs:18-36 | a value from one on picks the last slot; a negative, infinite or NaN one the first |
| OrderUniform.ShuffleUniform | src/player/order.rs:18-36 | every arrangement of distinct items comes from exactly one sequence of picks, so uniform values make all arrangements equally likely |
| OrderUniform.ChoicesMade | src/player/order.rs:18-36 | and every sequence of picks can be made |
| Order.NextIndexUnderRepeat | src/player/order.rs:42-55 | none exactly for no items or past the end without repeat-all; else the following index, or the first when past the end |
| QueueModel.QueueModel.At | src/player/queue.rs:80-86 | the entry at an index, none outside |
| QueueModel.QueueModel.SetShuffle | src/player/queue.rs:104-112 | a change of mode clears the history and rebuilds the order |
| QueueModel.QueueModel.PlaySequence | src/player/queue.rs:130-148 | items replaced, cursor clamped, history cleared |
| QueueModel.QueueModel.PlayNext | src/player/queue.rs:159-170 | inserted after the cursor; history is not remapped |
| QueueModel.QueueModel.Next | src/player/queue.rs:185-191 | cursor, history, order and reported item after one step, also when there is none |
| QueueModel.QueueModel.Previous | src/player/queue.rs:193-198 | cursor, history and reported item after one step back |
| QueueModel.QueueModel.MoveItem | src/player/queue.rs:209-232 | item moved, cursor and history remapped |
| QueueModel.QueueModel.RemoveAt | src/player/queue.rs:234-254 | item removed, its history entries dropped, the rest shifted |
| QueueModel.QueueModel.RebuildOrder | src/player/queue.rs:265-289 | order rebuilt with the cursor first |
| QueueModel.QueueModel.PushHistory | src/player/queue.rs:291-299 | history extended and cut to its newest 500 |
| QueueModel.QueueModel.PeekNextIndex | src/player/queue.rs:301-321 | the next index under repeat and shuffle |
| QueueModel.QueueModel.PeekPrevIndex | src/player/queue.rs:323-340 | unusable history entries dropped until one is usable; else the previous in play order |
| QueueEdits.MoveItemPlaces | src/player/queue.rs:209-232 | position by position, a move puts the item where it was told and keeps the others in order |
| QueueEdits.RemoveAtPlaces | src/player/queue.rs:234-254 | a removal takes out that item alone |
| QueueEdits.PlayNextIsNext | src/player/queue.rs:159-170 | the item is inserted after the cursor, which stays; unless shuffling, the next step gives it |
| QueueEdits.PlaySequenceStarts | src/player/queue.rs:130-148 | a new sequence starts at the asked item, or the nearest there is, with no history |
| QueueEdits.PlainSteps | src/player/queue.rs:185-198 | out of shuffle next walks the list and, without history, previous walks it back |
| QueueResults.StepKeeps | src/player/queue.rs:93-306 | every operation keeps -1 <= cursor < length, a history of at most 500 valid entries, and an order that is a permutation exactly while shuffling and empty otherwise |
| QueueResults.RunKeeps | src/player/queue.rs:93-306 | so does every run of operations |
| QueueResults.MoveItemKeepsItems | src/player/queue.rs:209-232 | read as items, the history and the current item are unchanged by a move |
| QueueResults.RemoveAtKeepsItems | src/player/queue.rs:234-254 | read as items, the history loses exactly the removed item's entries; the cursor stays on its item, or takes the following one, or the one before at the end |
| QueueResults.TrailRecorded | src/player/queue.rs:185-321 | after k <= 500 next calls the newest history entries are the positions left behind, in order: all k, or all but the first when that was before the queue, where next may also find nothing and change nothing |
| QueueResults.PreviousRetraces | src/player/queue.rs:185-340 | k <= 500 cursor-changing next calls followed by previous calls visit the same items in reverse, one fewer when the first next started before the queue |
| QueueResults.PeekNamesNext | src/player/player.rs:690-713 | the preload target is the item the next step moves to, unless repeat-all reshuffles |
| QueueResults.PeekAtReshuffle | src/player/queue.rs:301-321 | at a reshuffle the cursor stays on its item, so the preload target is right exactly when the old order began with that item |
| QueueResults.FreshShufflePass | src/player/queue.rs:265-321 | without repeat-all the j-th next call after a fresh shuffle is at the order's j-th entry |
| QueueResults.FreshShuffleVisitsAll | src/player/queue.rs:265-321 | turning shuffle on without repeat-all: next calls visit every other item exactly once and then report none; from before the queue they report none at once |
| QueueResults.RebuildRestores | src/player/queue.rs:265-289 | a rebuild restores the order's invariant from any state whose cursor and history are valid, and changes nothing else |
| PlayerQueue.SetAllKeepsIff | src/player/queue.rs:93-97 | replacing items and cursor keeps the queue's invariant exactly when the cursor is in range, the old history fits and, while shuffling, the length is unchanged |
| Player.Player.LengthOf | src/player/player.rs:618-632 | the exact length when known, else the hint in samples, zero unless finite and positive |
| Player.Player.Offsets | src/player/player.rs:634-643 | each track's start |
| Player.Player.TotalLength | src/player/player.rs:645-651 | the album's length |
| Player.Player.AlbumPosition | src/player/player.rs:653-669 | the rendered samples placed on the album, by engine kind |
| Player.Player.CurrentIndexAt | src/player/player.rs:671-680 | the index the loop ends with |
| Player.Player.TrackRemaining | src/player/player.rs:682-688 | samples left in a track, saturated at zero |
| Player.Player.PeekPreloadTarget | src/player/player.rs:690-713 | the item expected next |
| Player.Player.EnsureEngine | src/player/player.rs:715-732 | an engine of the wanted kind; replacing one moves the epoch twice |
| Player.Player.Load | src/player/player.rs:734-834 | the whole new state of a load for every resolver, open and standby answer, and whether it succeeded |
| Player.Player.FindItem | src/player/player.rs:1120-1128 | the first queued item with the target's identity |
| Player.Player.MoveBoundary | src/player/player.rs:1129-1144 | cursor, pending check, lengths, rate and item of a boundary move |
| Player.Player.ApplyCrossfadeResult | src/player/player.rs:1112-1174 | applied exactly when no load or engine change intervened and the target is still queued |
| Player.Player.FinishEosRace | src/player/player.rs:1176-1193 | the outgoing track's length cut to what was rendered |
| Player.Player.BeginCrossfade | src/player/player.rs:1046-1110 | the state after each answer of the engine, and whether the boundary was taken over |
| Player.Player.OnCrossfadeComplete | src/player/player.rs:545-564 | an in-flight fade is taken once and applied when it still may be |
| Player.Player.AdvanceCursor | src/player/player.rs:1213-1226 | the tick's own cursor move |
| Player.Player.FadeWanted | src/player/player.rs:1271-1313 | every condition for starting a fade |
| Player.Player.OnTick | src/player/player.rs:1195-1315 | the whole new state of a tick |
| Player.Player.TryFadeAtEos | src/player/player.rs:989-1044 | the fade attempted at the end of a source |
| Player.Player.AdvanceAtEos | src/player/player.rs:883-987 | repeat-one reload, end of queue, gapless promotion or reload |
| Player.Player.OnEos | src/player/player.rs:861-881 | the whole new state of an end of source, the in-flight flag cleared again |
| Player.Player.PlayItem | src/player/player.rs:321-330 | queue replaced by one item and loaded |
| Player.Player.PlaySequence | src/player/player.rs:333-349 | queue replaced and loaded; nothing for an empty sequence |
| Player.Player.PlayQueueIndex | src/player/player.rs:353-365 | jump within the queue |
| Player.Player.Next | src/player/player.rs:369-379 | a load generation spent even when there is no next item |
| Player.Player.Previous | src/player/player.rs:382-398 | restart after three seconds, else history-aware step back |
| Player.Player.RestartCurrentTrack | src/player/player.rs:1317-1347 | restart at the track's start |
| Player.Player.Seek | src/player/player.rs:1349-1426 | the track under the position, loaded when it is not the current one, and where in it the engine is told to go on |
| Player.Player.Resume | src/player/player.rs:1516-1540 | playing when the engine plays; a restored session is loaded instead |
| Player.Player.TogglePlay | src/player/player.rs:1480-1502 | pause, resume or replay by state |
| Player.Player.SetShuffle | src/player/player.rs:469-483 | order rebuilt and the reset offset retaken |
| Player.Player.Restore | src/player/player.rs:260-316 | a paused session at the saved index and position |
| Player.Player.OnQueueChanged | src/player/player.rs:567-583 | stop when the queue emptied, reload when the current item changed |
| PlayerResults.StepKeeps | src/player/player.rs:164-582 | every public operation, for all answers of engine and policies, keeps: a fade in progress iff one is recorded; an engine iff its kind is known; never left mutating, handling an end of source, or loading; playing or buffering only with an engine and without pause intent; counters never decrease |
| PlayerResults.RunKeeps | src/player/player.rs:164-582 | so does every run of public operations |
| PlayerResults.LoadKeeps | src/player/player.rs:734-834 | a load keeps it, from the loading state that commands set first |
| PlayerResults.EosKeeps | src/player/player.rs:861-1044 | an end of source keeps it and clears its flag |
| PlayerResults.TickKeeps | src/player/player.rs:1195-1315 | a tick keeps it |
| PlayerBoundary.OffsetsArePrefixSums | src/player/player.rs:634-643 | starts are the exact prefix sums of the lengths, saturated at 64 bits |
| PlayerBoundary.OffsetsMonotone | src/player/player.rs:634-643 | starts never decrease |
| PlayerBoundary.CurrentIndexIsGreatest | src/player/player.rs:671-680 | the current index is the greatest whose start is at or before the position |
| PlayerBoundary.CurrentIndexContains | src/player/player.rs:671-680 | without saturation it is the track that contains the position |
| PlayerBoundary.TickMovesIff | src/player/player.rs:1213-1226 | a tick's cursor move happens exactly while playing, with no boundary pending, past the next track's start, onto a track of positive length |
| PlayerBoundary.TickCursor | src/player/player.rs:1195-1315 | a tick that starts no fade leaves the queue alone or moves the cursor one on, exactly under that condition |
| PlayerBoundary.RunWaits | src/player/player.rs:503-534 | while a fade is in flight no run of ticks, ends of source, engine reports, pauses and resumes changes queue, lengths, rate, item or generations |
| PlayerBoundary.CompletionIff | src/player/player.rs:545-564 | a completion moves the boundary to the recorded target exactly when it still applies; otherwise only the fade is forgotten |
| PlayerBoundary.BoundaryTakenOnce | src/player/player.rs:545-1131 | a pending fade from a tick or an end of source, any such run, and the completion: the cursor moves exactly once, to the recorded target |
| PlayerBoundary.SupersededFade | src/player/player.rs:1112-1128 | once a load, transport command or engine change has overtaken a fade, no later run makes its completion move queue, lengths, rate or item |
| PlayerQueue.StepKeepsQueue | src/player/player.rs:321-582 | every public operation but a restore or a `set_all` keeps the queue's invariant |
| PlayerQueue.RunKeepsQueue | src/player/player.rs:321-582 | so does every run without them |
| PlayerQueue.RestoreKeepsIff | src/player/player.rs:260-316 | a restore keeps it exactly when it reshuffles afresh, or the old history and order fit the new items |
| PlayerQueue.RestoreBreaks | src/player/player.rs:260-316 | a run that breaks it: play two items, step to the second, restore a session with one; the history names a place the queue does not have |
| PlayerQueue.RestoreLosesCursor | src/player/player.rs:260-316 | a second run: shuffle two items, restore a shuffled session with one; the order is the old one, and the next step moves the cursor out of the queue |
| PlayerSeek.SeekLands | src/player/player.rs:1349-1426 | inside the album, a seek moves the cursor to the track that holds the asked sample by the exact sums of the lengths, and the engine and the clock go on at exactly that sample, whenever the track is current or loads; NaN and negative positions ask for the start |
| PlayerSeek.SeekPastEnd | src/player/player.rs:1349-1426 | past its end, at the last sample of the last track |
| PlayerSeek.SeekFails | src/player/player.rs:1349-1426 | when the track does not load, the cursor is on it and the player in error |
| PlayerSeek.SeekNowhere | src/player/player.rs:1349-1426 | an infinite position, or a player with nothing to seek in, moves neither cursor nor clock |
| PlayerTransport.LoadPlays | src/player/player.rs:734-834 | a load that succeeds has the cursor's item on an engine of its kind, its rate, new generations, and a clock at the exact start of the track plus the resumed samples, short of its last |
| PlayerTransport.LoadLengths | src/player/player.rs:734-834 | the opened track's exact length is recorded, and a prepared standby's; no other track's changes |
| PlayerTransport.NextLoads | src/player/player.rs:369-380 | the item that next reports is loaded from its start; without one nothing is, but a load generation is spent |
| PlayerTransport.PreviousLoads | src/player/player.rs:382-399 | the same for previous |
| PlayerTransport.QueueChangeActs | src/player/player.rs:567-585 | a queue changed from outside: emptied it stops the player, another current item is loaded, otherwise nothing happens |
| PlayerTransport.ClockRuns | src/player/player.rs:653-669 | the album position runs with what is rendered, from the cursor's exact start or from where playing began |
| PlayerTransport.HintIs | src/player/player.rs:618-632 | a hinted length is the whole samples of the hinted seconds |
| PlayerTransport.TogglePauses | src/player/player.rs:1480-1514 | toggling while playing pauses and changes nothing else |
| PlayerTransport.ToggleResumes | src/player/player.rs:1480-1540 | toggling while paused plays when the engine does |
| PlayerTransport.ToggleTwice | src/player/player.rs:1480-1540 | toggling twice plays on as before |
| PlayerTransport.ToggleReplays | src/player/player.rs:1480-1502 | toggling after the end, a stop or an error loads the current track from its start |
| PlayerTransport.PrimedPlays | src/player/player.rs:836-859 | a primed engine starts playing exactly while loading or buffering with no pause asked for |
| PlayerTransport.RestartLands | src/player/player.rs:1317-1347 | a restart goes to the exact start of the current track |
| PlayerTransport.RestorePauses | src/player/player.rs:260-316 | a restored session is paused at the saved item, or the nearest there is, with the saved position in whole samples short of the track's end |
| PlayerTransport.RestoredResumes | src/player/player.rs:1516-1540 | resuming it loads the item and goes on at the saved sample |
| PlayerFades.TickFadesIff | src/player/player.rs:1227-1315 | a tick begins a fade exactly when playing, once a track, with a next item, and the exact samples left of the track within the fade's length and the plan's lead |
| PlayerFades.NoFadeAtEnd | src/player/player.rs:1227-1315 | at the album's end no tick begins one |
| PlayerFades.TickEndsIff | src/player/player.rs:1195-1230 | a tick ends the player exactly when the end is pending and the album is within 256 samples of played out, or the engine drained |
| PlayerFades.PendingRecords | src/player/player.rs:1046-1110 | a fade that waits records the generation and engine it began with, its target, and the outgoing item with its exact length |
| PlayerFades.FadeLengths | src/player/player.rs:1112-1174 | after a fade's boundary the incoming track has its own length, the outgoing one is cut by the overlap and every other keeps its |
| PlayerFades.IncomingStarts | src/player/player.rs:1112-1174 | so the incoming track starts exactly where the outgoing one, cut by the overlap, ends |
| PlayerFades.RaceLeavesRendered | src/player/player.rs:1176-1193 | a fade that races the source's end leaves of the outgoing track exactly what was rendered |
| PlayerFades.EosFadeIff | src/player/player.rs:989-1044 | the exact condition for a fade at the end of a source: more than 256 samples of the track unrendered, among others |
| PlayerFades.EosRepeatsOne | src/player/player.rs:871-987 | repeat-one loads the same item from its start |
| PlayerFades.EosGapless | src/player/player.rs:871-987 | a promoted standby that is the next item plays on without a load |
| PlayerFades.EosLoadsNext | src/player/player.rs:871-987 | otherwise the next item is loaded |
| PlayerFades.EosEnds | src/player/player.rs:871-987 | with no next item the player ends once the album is played out |
| Samples.MaxAbsIsMax | src/audio/mod.rs:134-144 | the peak bounds every sanitized sample's magnitude and is attained |
| Waveform.FrameInBucket | src/audio/waveform_acc.rs:102-138 | frame n lies in bucket floor(10 n / rate) and no other; below 10 Hz every frame is a bucket |
| Waveform.ClockReduces | src/audio/waveform_acc.rs:112-131 | the millisecond clock counts exactly tenths of a second |
| Waveform.CompleteStep | src/audio/waveform_acc.rs:124-135 | one frame completes at most one bucket, exactly when the clock's index moves |
| Waveform.WaveformAccumulator.FlushBucket | src/audio/waveform_acc.rs:155-181 | the open bucket's point is appended and the bucket reset; refused at the cap |
| Waveform.WaveformAccumulator.FeedFrame | src/audio/waveform_acc.rs:112-138 | one frame: open bucket, clock and payload follow the stream, or the frame is refused at the cap |
| Waveform.WaveformAccumulator.Feed | src/audio/waveform_acc.rs:102-138 | misaligned calls change nothing; a call is refused exactly when the cap was or is exceeded; the payload stays determined by all samples offered |
| Waveform.WaveformAccumulator.Finish | src/audio/waveform_acc.rs:144-153 | the payload is the envelope of the whole stream offered |
| Waveform.NewAccumulator | src/audio/waveform_acc.rs:70-87 | created exactly for a positive rate and one to eight channels |
| Waveform.EnvelopeSize | src/audio/waveform_acc.rs:102-153 | N >= 1 frames give floor(10 (N-1) / rate) + 1 points, capped |
| Waveform.PointsAt | src/audio/waveform_acc.rs:102-181 | point b summarises exactly the frames of bucket b |
| Waveform.PointsExtend | src/audio/waveform_acc.rs:102-181 | complete points do not change when more is fed |
| WaveformResults.EnvelopeSays | src/audio/waveform_acc.rs:102-181 | point b of the payload is the quantized peak and the quantized root mean square of exactly the samples whose frame's time is in the b-th tenth of a second, and zero when they are silent |
| Waveform.ClockFits | src/audio/waveform_acc.rs:112-131 | the 64-bit frame counter cannot overflow before the cap |
| Waveform.Measure | src/audio/waveform_acc.rs:102-153 | for every way to cut a stream into calls, even past the cap, the payload is the same |
| Loudness.RingFrames | src/audio/loudness.rs:150-162 | the ring holds five hops of 100 ms when the rate ends in 3 or 4, and four otherwise |
| Loudness.ChunkFits | src/audio/loudness.rs:202-235 | a chunk up to the next block boundary never passes the ring's end |
| Loudness.AtHop | src/audio/loudness.rs:202-235 | at a boundary exactly one more block is complete, ending there |
| Loudness.WithinHop | src/audio/loudness.rs:202-235 | short of a boundary none is |
| Loudness.LoudnessMeter.FilterSample | src/audio/loudness.rs:313-333 | one filter step, written to the frame's cell of the ring; the other cells of the window are kept |
| LoudnessResults.DifferenceEquation | src/audio/loudness.rs:313-333 | for every stream, channel and frame, the weighted samples satisfy the filter's difference equation between inputs and outputs, silent before the start |
| LoudnessResults.SolutionUnique | src/audio/loudness.rs:313-333 | no other signal does |
| Loudness.LoudnessMeter.FilterChannels | src/audio/loudness.rs:313-333 | after a chunk the ring holds the K-weighted samples of the last ring-length frames of the whole stream |
| Loudness.LoudnessMeter.FilterChunk | src/audio/loudness.rs:284-334 | peaks, filter memory and ring are those of the longer stream; the scratch buffer is never exceeded |
| Loudness.LoudnessMeter.CalcGatingBlock | src/audio/loudness.rs:339-359 | the energy gated is the mean over exactly the frames [j s, j s + 4 s) of the stream |
| LoudnessResults.GatedEnergies | src/audio/loudness.rs:202-359 | the gated energies are, for every solution of the difference equation, the mean squares over all channels of the blocks that reach the threshold, in order |
| LoudnessResults.BlockCountIff | src/audio/loudness.rs:202-235 | block j counts exactly when its last frame, j + 4 hops in, is there |
| Loudness.LoudnessMeter.TakeBlock | src/audio/loudness.rs:219-229 | a chunk that completes a block, the ring's end hit exactly when it wraps |
| Loudness.LoudnessMeter.Process | src/audio/loudness.rs:202-235 | misaligned calls change nothing; otherwise every field is a function of the stream fed so far |
| Loudness.LoudnessMeter.GatedMean | src/audio/loudness.rs:254-281 | the two loops compute the gated mean |
| LoudnessResults.GatedMeanIs | src/audio/loudness.rs:254-281 | the gated mean is the mean of exactly the energies that are at least a tenth, ten decibels below, of the mean of all |
| Loudness.GatedMeanAtLeastMean | src/audio/loudness.rs:254-281 | the relative gate keeps at least one block and never lowers the mean |
| Loudness.GatedAbove | src/audio/loudness.rs:339-359 | recorded energies are at or above the absolute threshold |
| Loudness.NewMeter | src/audio/loudness.rs:132-195 | created exactly for one or two channels and rates 16 to 2822400 |
| Loudness.Measure | src/audio/loudness.rs:202-281 | for every way to cut a stream into calls, gated energies, gated mean and true peak are the same functions of the whole stream; the true peak is the larger of the sample peak and the interpolated peak |
| Interpolator.BuildFilters | src/audio/loudness.rs:425-454 | the taps are dealt to the phases, near-zero ones dropped |
| Interpolator.PhasesFit | src/audio/loudness.rs:425-454 | every delay fits the delay line |
| Interpolator.Interpolator.Apply | src/audio/loudness.rs:470-481 | one sub-filter's output is the sum over the stream's earlier samples, wherever the circular buffer starts |
| Interpolator.Interpolator.MaxAbs | src/audio/loudness.rs:458-496 | with the maximum so far, a call's maximum is the whole stream's, for every way to cut it |
| Interpolator.PeakBounds | src/audio/loudness.rs:458-496 | no output of any frame, channel and phase exceeds the peak |
| Interpolator.PeakAttained | src/audio/loudness.rs:458-496 | a positive peak is some frame's, channel's and phase's output |
| InterpolatorResults.PhaseConvolves | src/audio/loudness.rs:425-481 | a sub-filter's output is one step of the stream with zeros stuffed between its frames, convolved with all the taps |
| InterpolatorResults.PeakBoundsOversampled | src/audio/loudness.rs:458-496 | the peak bounds every step of that oversampled stream |
| InterpolatorResults.PeakIsOversampled | src/audio/loudness.rs:458-496 | and a positive peak is the magnitude of one |
| LyricsText.NormalizeCrlf | src/lyrics/parse.rs:35-40 | a text and its CRLF form normalize alike |
| LyricsText.NormalizeCr | src/lyrics/parse.rs:35-40 | so does its CR form |
| LyricsText.LinesExact | src/lyrics/parse.rs:35-45 | lines hold no line feed, and one after each gives the text back |
| LyricsText.TrimStartExact | src/lyrics/parse.rs:67 | the start loses exactly its longest run of white space |
| LyricsText.TrimEndExact | src/lyrics/parse.rs:100 | so does the end |
| Lyrics.SplitLeadingTokens | src/lyrics/parse.rs:177-194 | the loop computes the leading tokens and the rest |
| LyricsResults.TokensDecompose | src/lyrics/parse.rs:177-194 | the line is its tokens, bracketed again, and a rest that starts with no further token |
| LyricsResults.ParsesText | src/lyrics/parse.rs:215-250 | every token of the grammar parses to its milliseconds, or to none exactly past 63 bits |
| LyricsResults.ParsesOnly | src/lyrics/parse.rs:215-250 | nothing else parses |
| LyricsResults.TimestampRoundTrip | src/lyrics/parse.rs:215-250 | every time up to the 64-bit limit has a timestamp that parses back to it |
| LyricsResults.OffsetParses | src/lyrics/parse.rs:254-267 | an optionally signed number parses exactly when within an hour |
| LyricsResults.OffsetParsesOnly | src/lyrics/parse.rs:254-267 | nothing else does |
| Lyrics.StripWordTags | src/lyrics/parse.rs:283-313 | the loop computes the specified reduction |
| LyricsResults.StripRemovesSpans | src/lyrics/parse.rs:283-313 | exactly some timestamp-shaped spans are removed; the flag is set exactly when the text shrank, else the text is unchanged |
| LyricsResults.StripNotIdempotent | src/lyrics/parse.rs:283-313 | reducing twice can differ from reducing once: a concrete text |
| LyricsResults.StripExposes | src/lyrics/parse.rs:283-313 | for every two tags, one wrapped around the other: the first pass leaves a tag that the second removes |
| LyricsStrip.StripStep | src/lyrics/parse.rs:283-313 | the reduction read from the left: a tag that starts here is removed, any other character is kept |
| LyricsStrip.StripsIff | src/lyrics/parse.rs:283-313 | a text is changed, and reported as changed, exactly when some `<` starts a tag |
| LyricsStrip.StripTwiceIff | src/lyrics/parse.rs:283-313 | a second pass changes nothing exactly when no kept `<` stands directly before a tag with what follows it closing a tag, read by a scan that skips tags |
| LyricsStrip.AcrossIsStripped | src/lyrics/parse.rs:283-313 | that scan of the text answers what the stripped text would |
| LyricsStrip.StripOnceEnough | src/lyrics/parse.rs:283-313 | so once is enough for every text without `<<` before a digit or a sign |
| Lyrics.ScanTokens | src/lyrics/parse.rs:71-99 | tags and timestamps of a line in order; the first bad token decides the error |
| Lyrics.ScanLine | src/lyrics/parse.rs:58-127 | one physical line: length limit, tokens, then timed block, content line or nothing |
| Lyrics.ShiftEntries | src/lyrics/parse.rs:143-157 | every entry shifted, the first that leaves the range decides the error |
| Lyrics.Parse | src/lyrics/parse.rs:28-172 | the loops compute the specified document or the specified error, for every input |
| LyricsDocument.ScanKeeps | src/lyrics/parse.rs:58-127 | scanning succeeds exactly on good lines; each entry's block is the content after the previous timed line up to its own, for each of its timestamps in order, and pending lines are the content after the last |
| LyricsDocument.ScanConserves | src/lyrics/parse.rs:101-127 | one block per timed line, then the pending lines, are all content lines in order |
| LyricsMetadata.ParseDescribes | src/lyrics/parse.rs:71-103 | artist, title, album and author are the trimmed values of the last `ar`, `ti`, `al` and `by` tokens in document order, in either case, none when empty or missing; the flag says exactly whether some line's text had a word tag |
| LyricsMetadata.LastTagUnique | src/lyrics/parse.rs:71-99 | the tokens settle each of the four |
| LyricsDocument.ParseConserves | src/lyrics/parse.rs:71-172 | a parsed document is the stable sort of the shifted entries, its blocks (the trailing lines joined to the last) are all content lines and all timestamps in document order, and its metadata and flag are those of all its tokens and texts |
| LyricsDocument.AcceptedIff | src/lyrics/parse.rs:42-157 | a document is accepted exactly when it has few enough lines, every line is short enough with well-formed timestamps and offsets, and no shifted time leaves the range |
| LyricsErrors.BadLineRejected | src/lyrics/parse.rs:42-99 | within the line limit the first bad line decides the error: its length, else its first bad token |
| LyricsErrors.OutOfRangeRejected | src/lyrics/parse.rs:143-157 | with good lines the first timestamp that the offset takes out of range decides |
| LyricsDocument.SortedInOrder | src/lyrics/parse.rs:165-167 | the sort is sorted, a permutation, keeps equal times in document order, and is the only such list |
| LyricsDocument.ParsedIsSorted | src/lyrics/mod.rs:124-131 | a parsed synced document has lines, sorted and in range; negative positions select none |
| LyricsDocument.ActiveIsLast | src/lyrics/mod.rs:124-131 | the active line is the last at or before the position, so the last of a tie in document order |
| LyricsDocument.ActiveMonotone | src/lyrics/mod.rs:124-131 | a later position never selects an earlier line |
| Identity.AppendField | src/identity.rs:82-88 | tag, big-endian length truncated to 32 bits, bytes; nothing for an absent value |
| Identity.FieldBytes | src/identity.rs:82-88 | byte by byte: the tag, four bytes that read most significant first are the length modulo 2^32, then the value |
| Identity.DecodesIff | src/identity.rs:82-88 | a field list decodes back exactly when every value is shorter than 4 GiB |
| Identity.EncodeInjective | src/identity.rs:82-88 | such lists with the same encoding are equal; absent and empty differ |
| Identity.TruncationCollides | src/identity.rs:82-88 | past 4 GiB two different lists collide: a concrete pair |
| Identity.ValidMbid | src/identity.rs:56-72 | exactly the 8-4-4-4-12 shape is accepted |
| Identity.GroupKey | src/identity.rs:104-143 | the anchor when canonical, else the preimage of the sorted fields |
| Identity.ReleaseKey | src/identity.rs:146-190 | the anchor when canonical, else the preimage of the six values |
| IdentityResults.GroupDetermined | src/identity.rs:104-143 | group preimages agree exactly when title, date, type and sorted artists do |
| IdentityResults.ReleaseDetermined | src/identity.rs:146-190 | release preimages agree exactly when all six values do |
| IdentityResults.ReorderingIff | src/identity.rs:125-138 | every reordering of the artists keeps the sorted list exactly when no name occurs both without a role and with an empty one |
| IdentityResults.SwapChanges | src/identity.rs:125-138 | swapping such a pair changes the sorted list |
| IdentityResults.LexLeIff | src/identity.rs:125-138 | names and roles are ordered by their first differing byte, a prefix first |
| Sorting.SortIsStable | src/identity.rs:125-138 | the sort keeps equivalent elements in their order |
| SourceUrl.PercentEncodeContainer | src/player/source_url.rs:195-205 | the loop computes the specified escaping, each other byte pushed as a character |
| SourceUrl.PercentDecode | src/player/source_url.rs:171-192 | the loop computes the specified decoding, none on a bad escape or when the bytes are not UTF-8 |
| SourceUtf8.Utf8Iff | src/player/source_url.rs:171-192 | the check for UTF-8 accepts exactly the encodings of sequences of scalar values |
| SourceUrl.EncodedHasNoSeparator | src/player/source_url.rs:195-205 | the encoder leaves no separator in the container |
| SourceUrl.DecodeEncoded | src/player/source_url.rs:171-205 | decoding an encoded container gives its Latin-1 reading |
| SourceUrl.ParseFormatted | src/player/source_url.rs:102-133 | a formatted key parses to that reading and the member verbatim; empty parts are refused |
| SourceUrl.RoundTripIff | src/player/source_url.rs:102-205 | the round trip and the transport URL are exact precisely for ASCII containers |
| SourceUrl.FormatInjective | src/player/source_url.rs:128-133 | different containers or members have different keys, whatever their bytes |

## Left out

- Identity.EncodeInjective: needs every value shorter than 4 GiB, because the length is cut to 32 bits; `DecodesIff` and `TruncationCollides` give the exact limit.
- Loudness.Measure: exact reals, so the order of additions and double rounding are not observable.
- Waveform.Measure: exact reals likewise; the quantizer is a parameter.
- Shortest.ShortestRoundTrip: the shortest text of a double is a parameter; that it has at most 17 digits, is near the number and parses back to it is assumed, that no shorter text would do is not needed.
- Shortest.MagnitudesDecide: between 5e61 and 2e63, and between 5e-62 and 2e-44, the number of digits decides, and that is stated by the text's length only.
- NumberStable.PrintsSameIff: that conversion is correctly rounded is the parsing parameter's promise; which of two equally near doubles it takes is left open.
- Snapshot.DecodeEncoded: needs at most 2^53 items, far more than memory holds, so that the item count itself is an exact double.
- PlayerSeek.SeekLands: for albums whose exact length fits 64 bits; past that the starts saturate, as `PlayerBoundary.OffsetsArePrefixSums` says.
- PlayerFades.TickFadesIff: seen by the armed trigger, so not for a fade that the engine completes within the tick, which releases it again.
- PlayerFades.IncomingStarts: for a fade at one sample rate between tracks that are queued once up to there; `FadeLengths` has no such limits.
- OrderUniform.ShuffleUniform: counts arrangements; that the random source is uniform is the host's promise.
- JSON error positions and messages, and `has_duplicate_keys`, a separate check over a parsed tree.
- Values of decibels, the K-weighting coefficients and the sinc taps as numbers.
- The 32-bit width of decimal exponents in the printer: a double's exponents are within a few hundred.
- Joining disjoint bits by bitwise or in the bignum shift is written as their sum.
- The player's displayed seconds, gain, volume, events and error text; the three-second test of `previous` is an input.
- Display fields of a playback item, and how an item is read from JSON, which is a predicate parameter of the snapshot codec.
- SHA-256: keys are modelled up to the bytes that are hashed.
- The order in which engine side effects (seek, pump, close) are issued; of a seek, where in the track the engine is sent is returned.
- Storage, containers, codecs, the authoring builder, validation, the host application and command-line tools.
- The queue's test seam that sets the order directly.

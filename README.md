# Format detection in Jackson core, modelled in Dafny

This project models the data-format detection of Jackson core (`com.fasterxml.jackson.core.format`).
A detector (`DataFormatDetector`) holds an ordered list of format recognizers and three settings:
- the optimal threshold, SOLID by default;
- the minimal threshold, WEAK by default;
- the maximum lookahead, 64 bytes by default.

`findFormat` takes a byte array, a slice of one, or a stream. It shows the leading bytes to the recognizers in order and arbitrates their `MatchStrength` verdicts. The result is a match result (`DataFormatMatcher`). That result keeps the bytes it buffered. When the input was a stream, it keeps that stream too. Either way, a parser or data stream obtained from the match sees the whole input: a stream goes through `MergedStream`, which replays the buffered window and then continues with the stream.

Modules:
- `ByteStreams`: bytes, and an in-memory input stream (`ByteArrayInputStream`) with `read()`, `read(b, off, len)` and `available()`.
- `MergedStreams`: `MergedStream` as a class with a buffer pointer, an end and a tail stream. `DataStream` says which kind of stream `getDataStream` returned.
- `Formats`: the five-valued `MatchStrength` scale and the abstract recognizer (a name plus a verdict on a byte prefix).
- `Matchers`: the match result, its checked constructor, `getDataStream` and `createParserWithMatch`.
- `Arbitration`: the recognizer loop as a recursive function, together with an independent description of its winner.
- `NameLists`: the `[A, B, C]` rendering of recognizer names, and a parser that reads it back.
- `Detectors`: `DataFormatDetector` with copy-on-change reconfiguration, `toString` and the three `findFormat` entry points.
- `Scenarios`: the situations set up by the two format test classes, replayed on the model. These scenarios use a first-byte stand-in for the JSON recognizer.

The implementation classes themselves (`DataFormatDetector.java`, `DataFormatMatcher.java`, `MergedStream.java`, `InputAccessor.java`) are not part of this model's sources. The behaviour follows what the two test classes assert. Where the tests fix an outcome, the tests are followed. In particular, when no recognizer reaches the minimal threshold, the reported strength is always INCONCLUSIVE, never NO_MATCH (`TestJsonFormatDetection.java:134`).

## Model

| member | source | states |
|---|---|---|
| Matchers.NewMatcher | src/test/java/com/fasterxml/jackson/core/format/DataFormatMatcherTest.java:49-102 | a match is built exactly when `0 <= start`, `0 <= length` and `start + length <= buffer length`; otherwise the result is the "Illegal start/length" error carrying the offending values; a built match keeps its stream, buffer window and recognizer, and a missing strength becomes INCONCLUSIVE |
| Scenarios.IllegalWindowsRejected | src/test/java/com/fasterxml/jackson/core/format/DataFormatMatcherTest.java:50-101 | the four windows of the test (past the end, negative start, negative length, both negative) are each refused with the illegal start/length error |
| Scenarios.BoundaryWindowsAccepted | src/test/java/com/fasterxml/jackson/core/format/DataFormatMatcherTest.java:105-110 | empty windows at offset 0 and at the end of a two-byte buffer are accepted, and the latter covers no bytes |
| Matchers.Matcher.HasMatch | src/test/java/com/fasterxml/jackson/core/format/TestJsonFormatDetection.java:17-18 | `hasMatch()` holds exactly when there is a format name |
| Matchers.Matcher.MatchedFormatName | src/test/java/com/fasterxml/jackson/core/format/DataFormatMatcherTest.java:104-112 | the format name is present exactly when a recognizer is kept, and is then that recognizer's name; absent (Java: null) otherwise |
| Matchers.StrengthOrInconclusive | src/test/java/com/fasterxml/jackson/core/format/TestJsonFormatDetection.java:131-134 | a given strength is reported as is; a missing strength is reported as INCONCLUSIVE, and INCONCLUSIVE arises only that way or when given |
| Matchers.GetDataStream | src/test/java/com/fasterxml/jackson/core/format/DataFormatMatcherTest.java:19-47 | `getDataStream` returns a plain view exactly when there is no original stream, otherwise a merged stream over that very stream; either one delivers the window followed by what the original stream still holds, and reports the window length as available |
| Scenarios.DataStreamWithOriginalStream | src/test/java/com/fasterxml/jackson/core/format/DataFormatMatcherTest.java:19-32 | with an original two-byte stream and an empty window, the data stream is the merged kind, reports 0 available and still delivers 2 bytes in total |
| Scenarios.DataStreamNoOriginalStream | src/test/java/com/fasterxml/jackson/core/format/DataFormatMatcherTest.java:34-47 | without an original stream the data stream is the plain kind and reports 0 available |
| Matchers.CreateParserWithMatch | src/test/java/com/fasterxml/jackson/core/format/DataFormatMatcherTest.java:114-148 | a parser exists exactly when there is a winning recognizer, whatever the strength; it belongs to that recognizer and reads exactly the window followed by the rest of the original stream: directly from the buffer without a stream, through a new merged stream over the original stream otherwise |
| Scenarios.MatcherAccessors | src/test/java/com/fasterxml/jackson/core/format/DataFormatMatcherTest.java:104-148 | the format name is the recognizer's ("JSON"); there is no parser without a recognizer even at SOLID; with one there is a buffer parser without a stream and a stream parser with one |
| MergedStreams.MergedStream.constructor | src/test/java/com/fasterxml/jackson/core/format/DataFormatMatcherTest.java:22-30 | a new merged stream has `buf[start..end]` pending in its buffer and delivers it followed by what its tail still holds |
| Scenarios.MergedAvailableAfterReads | src/test/java/com/fasterxml/jackson/core/format/DataFormatMatcherTest.java:19-32 | over a two-byte window and a two-byte tail, `available()` is 2, then 1 after one read, then 2 again once the drained window is dropped and the tail is reported |
| MergedStreams.MergedStream.Available | src/test/java/com/fasterxml/jackson/core/format/DataFormatMatcherTest.java:29 | while the buffer is attached, only the buffered bytes not yet delivered are reported, even when the tail holds more; after that, everything still to come |
| MergedStreams.MergedStream.Read | src/test/java/com/fasterxml/jackson/core/format/TestJsonFormatDetection.java:23-28 | one byte read delivers the first byte of the merged content (or -1 at its end), and the content that remains is the rest; while buffered bytes are pending the byte comes from the buffer and the tail is untouched, otherwise the buffer is dropped and the byte comes from the tail; a drained buffer is dropped at once |
| MergedStreams.MergedStream.ReadInto | src/test/java/com/fasterxml/jackson/core/format/TestJsonFormatDetection.java:23-28 | a bulk read copies the next bytes of the merged content into `b[off..]` and leaves the rest of `b` alone; it returns -1 only at the end of input, and otherwise at least one byte whenever `len > 0`; the remaining content is exactly what was not copied; while buffered bytes are pending the copy takes only from the buffer and leaves the tail untouched, otherwise the buffer is dropped; a drained buffer is dropped at once |
| MergedStreams.MergedStream.ReadBuffered | src/test/java/com/fasterxml/jackson/core/format/TestJsonFormatDetection.java:23-28 | a bulk read served from the buffer copies `min(len, buffered bytes left)` bytes and never mixes in bytes of the tail |
| MergedStreams.MergedStream.ReadAll | src/test/java/com/fasterxml/jackson/core/format/TestJsonFormatDetection.java:23-28 | reading to the end delivers exactly the merged content, the buffered window and then the tail, with no byte skipped or repeated |
| ByteStreams.ByteStream.Over | src/test/java/com/fasterxml/jackson/core/format/TestJsonFormatDetection.java:15 | `new ByteArrayInputStream(bytes)` delivers exactly `bytes` |
| ByteStreams.ByteStream.View | src/test/java/com/fasterxml/jackson/core/format/DataFormatMatcherTest.java:43-45 | a bounded view over `bytes[offset..offset + length]` delivers exactly those bytes |
| ByteStreams.ByteStream.Available | src/test/java/com/fasterxml/jackson/core/format/DataFormatMatcherTest.java:44 | `available()` of an in-memory stream is the number of bytes it still holds |
| ByteStreams.ByteStream.Read | src/test/java/com/fasterxml/jackson/core/format/TestJsonFormatDetection.java:15 | reading one byte from an in-memory stream delivers its next byte, or -1 at the end |
| ByteStreams.ByteStream.ReadInto | src/test/java/com/fasterxml/jackson/core/format/TestJsonFormatDetection.java:15 | a bulk read from an in-memory stream copies `min(len, bytes left)` bytes into `b[off..]` and leaves the rest of `b` alone; it returns -1 at the end |
| Arbitration.WinnerFromSound | src/test/java/com/fasterxml/jackson/core/format/TestJsonFormatDetection.java:99-123 | the recognizer loop (skip verdicts below minimal or no stronger than the best so far, stop at one reaching optimal) picks a recognizer satisfying the independent winner description, and picks none only when no verdict reaches minimal |
| Arbitration.WinnerCharacterized | src/test/java/com/fasterxml/jackson/core/format/TestJsonFormatDetection.java:125-137 | there is no winner if and only if no verdict reaches the minimal threshold, and index `k` wins if and only if it is the first decisive verdict (or, when there is none, the first strongest acceptable one) |
| Arbitration.ChosenIsUnique | src/test/java/com/fasterxml/jackson/core/format/TestJsonFormatDetection.java:99-123 | the independent winner description names at most one recognizer |
| Arbitration.FirstDecisiveWins | src/test/java/com/fasterxml/jackson/core/format/TestJsonFormatDetection.java:10-21 | the first recognizer whose verdict reaches both thresholds wins, whatever the later recognizers say |
| Detectors.Detector.constructor | src/test/java/com/fasterxml/jackson/core/format/DataFormatMatcherTest.java:149-152 | a new detector has optimal SOLID, minimal WEAK and the default lookahead of 64 bytes |
| Detectors.Detector.Configured | src/test/java/com/fasterxml/jackson/core/format/TestJsonFormatDetection.java:67-77 | a detector built by a reconfiguration has exactly the given recognizers, thresholds and lookahead |
| Detectors.Detector.WithOptimalMatch | src/test/java/com/fasterxml/jackson/core/format/TestJsonFormatDetection.java:66-68 | the current optimal threshold gives back this very detector; another value gives a new detector that differs only in that threshold |
| Detectors.Detector.WithMinimalMatch | src/test/java/com/fasterxml/jackson/core/format/TestJsonFormatDetection.java:69-71 | the same copy-on-change law for the minimal threshold |
| Detectors.Detector.WithMaxInputLookahead | src/test/java/com/fasterxml/jackson/core/format/TestJsonFormatDetection.java:72-77 | the same copy-on-change law for the lookahead |
| Scenarios.CopyOnChange | src/test/java/com/fasterxml/jackson/core/format/TestJsonFormatDetection.java:63-78 | on a default detector, each setting's current value gives the same detector and a different value a different one |
| Scenarios.DetectorConfiguration | src/test/java/com/fasterxml/jackson/core/format/DataFormatMatcherTest.java:149-164 | a default detector has the default settings, obeys copy-on-change for each of them, and renders as "[JSON]" |
| Detectors.Detector.ToString | src/test/java/com/fasterxml/jackson/core/format/DataFormatMatcherTest.java:162-163 | `toString()` always yields a bracketed text, and "[]" for a detector without recognizers |
| Detectors.ToStringListsNames | src/test/java/com/fasterxml/jackson/core/format/TestJsonFormatDetection.java:80-93 | `toString` lists the recognizers' names in order: reading it back gives exactly that list |
| NameLists.RenderRoundTrip | src/test/java/com/fasterxml/jackson/core/format/TestJsonFormatDetection.java:80-93 | for names without commas, the bracketed comma-separated rendering reads back to exactly the original list, the empty list included |
| NameLists.SplitJoin | src/test/java/com/fasterxml/jackson/core/format/TestJsonFormatDetection.java:92 | splitting a non-empty joined list of comma-free names at ", " recovers the names |
| NameLists.JoinEmptyOnlyForNoNames | src/test/java/com/fasterxml/jackson/core/format/TestJsonFormatDetection.java:87 | the joined names are empty exactly when there are no names, so "[]" means an empty detector |
| Scenarios.Rendering | src/test/java/com/fasterxml/jackson/core/format/TestJsonFormatDetection.java:80-93 | an empty detector renders as "[]", one with three JSON recognizers as "[JSON, JSON, JSON]" |
| Detectors.Detector.FindBest | src/test/java/com/fasterxml/jackson/core/format/TestJsonFormatDetection.java:99-123 | the loop over recognizers, with its skips and early break, returns the arbitration winner and its verdict, or nothing; with nothing, the reported strength is INCONCLUSIVE |
| Detectors.Detector.FindFormat | src/test/java/com/fasterxml/jackson/core/format/TestJsonFormatDetection.java:106 | detection on a byte array keeps the whole array as the window, keeps no stream, and reports the winner and strength of the arbitration on the first `maxLookahead` bytes |
| Detectors.Detector.FindFormatRange | src/test/java/com/fasterxml/jackson/core/format/TestJsonFormatDetection.java:107 | detection on a slice is refused exactly when the slice does not fit the array; otherwise the slice is the window and the outcome is the arbitration on its first `maxLookahead` bytes |
| Detectors.Detector.FindFormatStream | src/test/java/com/fasterxml/jackson/core/format/TestJsonFormatDetection.java:15 | detection on a stream buffers the first `min(available, maxLookahead)` bytes (none without recognizers) and keeps the stream, so window and stream together still hold the whole input; the outcome is the arbitration on those bytes |
| Detectors.ReadAhead | src/test/java/com/fasterxml/jackson/core/format/TestJsonFormatDetection.java:129 | short reads are retried until the buffer is full or the stream ends: exactly the first `min(length, size)` bytes are taken and the stream keeps the rest |
| Detectors.OutcomeMeaning | src/test/java/com/fasterxml/jackson/core/format/TestJsonFormatDetection.java:125-137 | a format is reported if and only if some recognizer's verdict reaches the minimal threshold; the reported recognizer is one of the detector's and its own verdict, at least minimal, is the reported strength; with no winner the strength is INCONCLUSIVE |
| Detectors.FirstDecisiveRecognizerWins | src/test/java/com/fasterxml/jackson/core/format/TestJsonFormatDetection.java:17-21 | the first recognizer whose verdict reaches the optimal threshold is reported, with its verdict as the strength |
| Scenarios.DetectThenParseStream | src/test/java/com/fasterxml/jackson/core/format/TestJsonFormatDetection.java:15-28 | for every detector and input, detection on a stream reports the arbitration outcome, and the parser made from it, which exists exactly when a format won, reads back the whole input, read-ahead included |
| Scenarios.ThreeCallStyles | src/test/java/com/fasterxml/jackson/core/format/TestJsonFormatDetection.java:104-108 | `findFormat(bytes)`, `findFormat(bytes, 0, len)` and `findFormat(stream)` on the same bytes give the same recognizer and the same strength |
| Scenarios.DetectJson | src/test/java/com/fasterxml/jackson/core/format/TestJsonFormatDetection.java:111-123 | for any input, a default detector with one JSON recognizer reports JSON if and only if the verdict is at least WEAK; then the strength is that verdict and the parser sees the whole input; otherwise there is no name, the strength is INCONCLUSIVE and there is no parser |
| Scenarios.SimpleValidArrayAndObject | src/test/java/com/fasterxml/jackson/core/format/TestJsonFormatDetection.java:10-53 | `[ 1, 2 ]` and `{  "field" : true }` are SOLID JSON matches whose parser reads every byte |
| Scenarios.SimpleValidString | src/test/java/com/fasterxml/jackson/core/format/TestJsonFormatDetection.java:99-123 | `"JSON!"` is a WEAK JSON match, which the default minimal threshold accepts, and its parser reads every byte |
| Scenarios.SimpleInvalid | src/test/java/com/fasterxml/jackson/core/format/TestJsonFormatDetection.java:125-137 | `<root />` gives no match, no name, strength INCONCLUSIVE and no parser |

## Left out

- JSON parsing: tokens, `nextToken`, `getText` and `getCurrentName` are not modelled. A parser is only the recognizer plus the bytes it will read, and "every token comes back" is stated as "the parser reads the whole input".
- The JSON recognizer's byte sniffing (`JsonFactory.hasFormat`) is not part of this model. Recognizers are abstract verdict functions. The scenarios use a stand-in that only looks at the first byte: `[` or `{` gives SOLID, `"` gives WEAK, other bytes give NO_MATCH, and no bytes gives INCONCLUSIVE.
- Runtime type checks (`assertType(..., MergedStream.class)`) become the `Plain`/`Merged` tag of `DataStream` and the `FromBytes`/`FromStream` tag of a parser's input.
- `IOException`, `close()`, `skip`, `mark` and `reset` of the streams are not modelled. Streams are in-memory byte sequences with a cursor.
- Detectors.Detector.FindFormatStream: it reads ahead eagerly, up to the lookahead, before asking any recognizer. The Java input accessor reads lazily as recognizers ask for more. The buffered window can therefore be longer than Java's. The bytes a consumer eventually sees are the same.
- Matchers.NewMatcher: it checks `start + length` on unbounded integers. The 32-bit overflow of Java's `int` for huge arguments is not modelled.
- Detectors.Detector.WithMaxInputLookahead: it takes a `nat`. A negative lookahead, which Java would accept and then fail on when allocating the buffer, is not modelled.
- Matchers.GetDataStream: `buffer` is an immutable sequence. Aliasing between the caller's byte array and the match's buffer is not modelled.
- Text is ASCII bytes (`Scenarios.Ascii`). The UTF-8 encoding done by `getBytes("UTF-8")` is not modelled.
- A recognizer's explicit NO_MATCH is never reported as the outcome: every no-winner outcome is INCONCLUSIVE (`TestJsonFormatDetection.java:134`).
- Single use of `getDataStream`/`createParserWithMatch` per match is not enforced. Each call builds a new stream over the same retained original stream.

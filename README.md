# blobStream parsing core, modelled in Dafny

blobStream reads a text stream made of repeated "blobs". Each blob is a run of `key=value` lines
closed by a sentinel line (`EOB` in the sample definition). The parser emits each blob as an
object whose values are typed by the blob definition. This project models that parsing core from
`src/index.js`, which has three parts:

- **Line reassembler** (`readStreamHandleData`). It appends each chunk to the pending text
  (`streamData`), then cuts off and handles every complete line, in order. The module `Lines`
  specifies this as the function `SplitLines`; `Stream.BlobStream.ReadData` is the loop itself.
- **Blob assembler** (`handleLineData`). A line equal to the blob end emits the blob in progress
  and clears it. Any other line is cut at the first key/value delimiter and its converted value is
  stored in the blob in progress, which is created on demand. A line without the delimiter is
  dropped. The module `Assembler` specifies this as `LineStep` (one line) and `RunLines` (many
  lines); `Stream.BlobStream.HandleLine` updates the parser's fields in place.
- **Value coercer** (`convertValue`). It switches on the field's `type` in the definition's
  `structure`. The module `Coerce` models it. It uses the JavaScript built-ins modelled in
  `JsString`: `indexOf`, `substr`, `toLowerCase` and `parseInt(·, 10)`.

The module-level parser state becomes the class `Stream.BlobStream`:

- `buffer` is `streamData`.
- `current` is `currentBlob`; `None` stands for both `undefined` and `null`.
- `emitted` lists the payloads of the `'blob'` events, in order.
- `ended` records the `'end'` event.

The definition is a datatype value (`Definition.BlobDefinition`). `Definition.SampleBlob` is the
sample definition of `src/blobs/_testSampleBlob.js`. `Scenarios` states what that definition does
with blobs made of an `id=` line, a `name=` line and `EOB` (the fields the repository's test
checks), for every id and every name.

Behaviour of the code worth knowing:

- A blob end with no blob in progress emits `null`/`undefined` (modelled as `None`). Two blob ends
  in a row therefore emit the blob and then `None` (`Assembler.DoubleSentinel`).
- For a key missing from `structure`, reading `structure[key].type` throws a TypeError (modelled
  as `Failure(MissingField(key))`). The throw leaves the blob in
  progress created, ends `readStreamHandleData` with that line already cut off the buffer, and
  leaves the later lines pending.
- The `bool`/`boolean` conversion lower-cases the text but does not trim it.
- The type tag is compared exactly, as a case-sensitive string. An unrecognised tag keeps the raw
  text.
- Lines are always cut at `"\n"`. The `newlineDelimiter` and `mode` settings are never read.
- The value is `substr(index + 1)` even when the delimiter is longer than one character. The rest
  of such a delimiter then stays at the front of the value (`Assembler.LongDelimiterValue`).

## Model

| member | source | states |
|---|---|---|
| JsString.IndexFrom | src/index.js:34 | for `from` within the text, the result is -1 or an occurrence at or after `from`, and no earlier occurrence at or after `from` exists |
| JsString.IndexOf | src/index.js:34 | `indexOf` is -1 exactly when the delimiter never occurs; otherwise it is the first occurrence |
| JsString.IndexOfChar | src/index.js:79 | `indexOf('\n')` is -1 exactly when there is no newline; otherwise it is the index of the first newline |
| JsString.IndexOfCharAgrees | src/index.js:79 | the one-character search equals the general `indexOf` with a one-character needle |
| JsString.Substr | src/index.js:45 | `substr(start)` is the text from `start` on, character for character, and empty when `start` is past the end |
| JsString.ToLowerCase | src/index.js:63 | `toLowerCase` keeps the length, leaves no capital ASCII letter, and changes a character only by replacing a capital with its lower-case letter |
| JsString.ParseInt | src/index.js:60 | no contract of its own: `parseInt(raw, 10)` is stated by `ParseIntSkipsWhitespace`, `ParseIntDigits`, `ParseIntNegativeDigits`, `ParseIntPlusDigits`, `ParseIntRoundTrip` and `ParseIntNaN` |
| JsString.TrimStart | src/index.js:60 | parseInt skips exactly the leading white space: the result is a suffix, everything dropped is white space, and the result does not start with white space |
| JsString.DigitPrefix | src/index.js:60 | parseInt reads the longest prefix made only of decimal digits |
| JsString.ParseIntSkipsWhitespace | src/index.js:60 | leading white space does not change what parseInt reads |
| JsString.ParseIntDigits | src/index.js:60 | parseInt, and its sign-and-digits step, read a digit run as its decimal value, stopping at the first non-digit |
| JsString.ParseIntNegativeDigits | src/index.js:60 | parseInt's sign-and-digits step, which follows the white space, reads a minus sign and a digit run as the negated decimal value, stopping at the first non-digit |
| JsString.ParseIntPlusDigits | src/index.js:60 | parseInt's sign-and-digits step, which follows the white space, drops a plus sign and reads the digit run after it as its decimal value, stopping at the first non-digit |
| JsString.ParseIntRoundTrip | src/index.js:60 | parseInt reads back every integer written in base 10, after any white space and before any text that is not a digit |
| JsString.ParseIntNaN | src/index.js:60 | parseInt gives NaN exactly when no digit follows the white space and the optional sign |
| Coerce.ConvertValue | src/index.js:58-67 | the conversion fails exactly when the key is missing from `structure`, and then with that key; an `int` field holds `parseInt` of the text (NaN included), a `bool`/`boolean` field the bool conversion, a `float` or `date` field the raw text for `parseFloat` or `new Date`; an untyped field or an unknown tag keeps the raw text |
| Coerce.ParseBool | src/index.js:63 | no contract of its own: `toLowerCase() === 'true'` is stated by `ParseBoolExactlyTrue` |
| Coerce.ConvertIntNaN | src/index.js:60 | an `int` field whose text starts with neither white space, a sign nor a digit holds NaN |
| Coerce.ConvertIntRoundTrip | src/index.js:60 | an `int` field holds the integer its decimal text denotes, whatever non-digit text follows |
| Coerce.ParseBoolExactlyTrue | src/index.js:63 | the bool conversion is true exactly for the four letters of "true" in any mix of cases, with nothing before or after them |
| Coerce.ConvertBool | src/index.js:62-63 | a `bool` or `boolean` field holds true exactly for "true" in any case mix, and false for everything else |
| Definition.SampleBlob | src/blobs/_testSampleBlob.js:1-14 | the sample definition: blob end `EOB`, delimiter `=`, `id` typed `int`, `name` and `location` untyped |
| Coerce.SampleConversions | src/blobs/_testSampleBlob.js:8-14 | with the sample definition, `id` "1" becomes the integer 1, `name` stays text, and an unlisted key throws |
| Lines.SplitLines | src/index.js:79-94 | no contract of its own: the lines and pending tail of the loop are stated by `SplitLinesFirst`, `SplitLinesNone`, `SplitLinesSound`, `SplitLinesUnique` and `SplitLinesConcat` |
| Lines.SplitLinesSound | src/index.js:79-94 | nothing is lost or duplicated: the lines `SplitLines` hands on, each followed by "\n", then the pending tail, give back the buffer; no line and not the tail contains "\n" |
| Lines.SplitLinesFirst | src/index.js:86-87 | the first line is the text before the first "\n", and the rest of the split is the split of the text after it |
| Lines.SplitLinesNone | src/index.js:79-84 | a buffer without "\n" hands on no line and stays pending as it is |
| Lines.SplitLinesUnique | src/index.js:84-94 | the split is determined by the text: newline-free lines and a newline-free tail split back into exactly themselves |
| Lines.SplitLinesConcat | src/index.js:74-95 | cutting `a` and then the pending tail plus `b` gives the same lines, in order, and the same tail as cutting `a + b` at once |
| Assembler.SplitPair | src/index.js:33-45 | no pair exactly when the delimiter does not occur; otherwise the key is the text before the first occurrence and holds no occurrence; the value is the text from one character after the key on; with a one-character delimiter, key, delimiter and value make up the line |
| Assembler.SplitPairRoundTrip | src/index.js:33-45 | a key without the delimiter, the delimiter, and any value split back into that key and that value |
| Assembler.FirstDelimiterSplits | src/index.js:33-45 | `a=b=c` splits into key `a` and value `b=c` |
| Assembler.LongDelimiterValue | src/index.js:44-45 | with the delimiter `==`, `a==b` splits into key `a` and value `=b` |
| Assembler.LineStep | src/index.js:24-48 | no contract of its own: `handleLineData` for one line is stated by `SentinelClosesBlob`, `LineWithoutDelimiterIgnored`, `PairStored`, `PairMissingField` and `LineStepFields` |
| Assembler.SentinelClosesBlob | src/index.js:27-31 | a line equal to the blob end emits the blob in progress, even when there is none, and clears it; this check comes before the delimiter search |
| Assembler.LineWithoutDelimiterIgnored | src/index.js:34-37 | any other line without the delimiter changes nothing and emits nothing |
| Assembler.PairStored | src/index.js:39-46 | a key/value line for a listed key creates the blob if needed and stores the converted value under the key; every other field is kept and nothing is emitted |
| Assembler.PairMissingField | src/index.js:39-46 | a key/value line for an unlisted key throws after the blob has been created, and emits nothing |
| Assembler.LineStepFields | src/index.js:33-46 | a line that is not the blob end and does not throw changes only the key it carries, which then holds the converted value; the blob is open afterwards exactly when it was before or the line had the delimiter; nothing is emitted |
| Assembler.RunLines | src/index.js:84-94 | handling lines in turn only appends to the emitted blobs |
| Assembler.RunLinesAppend | src/index.js:84-94 | handling two stretches of lines one after the other is the same as handling them together, stopping at the first throw |
| Assembler.RunLinesEmitsPerSentinel | src/index.js:27-31 | without a throw, exactly one blob (or `None`) is emitted per line equal to the blob end |
| Assembler.LastWriteWins | src/index.js:39-46 | within one blob, each key holds the converted value of its last line, keys no line mentions keep their value, the blob is open exactly when it was open before or some line had the delimiter, and nothing is emitted |
| Assembler.ClosedBlob | src/index.js:27-31 | a blob end after some lines emits the blob those lines built and clears it |
| Assembler.DoubleSentinel | src/index.js:27-31 | two blob ends in a row emit the blob in progress and then `None` |
| Stream.BlobStream.constructor | src/index.js:13-17 | a new parser has nothing pending, no blob in progress and nothing emitted |
| Stream.BlobStream.HandleLine | src/index.js:24-48 | the new blob in progress, the new output and the throw are exactly one `LineStep` of the old state |
| Stream.BlobStream.ReadData | src/index.js:74-95 | the handled lines, each followed by "\n", then the new buffer give the old buffer plus the chunk; the handled lines are a prefix of the chunk's `SplitLines`, handled in order; the blob state is `RunLines` of them; without a throw the buffer is exactly the newline-free tail; with a throw it was the last handled line that threw |
| Stream.BlobStream.End | src/index.js:100-102 | ending the stream emits no blob: the blob in progress is not flushed |
| Stream.ChunkBoundariesInvisible | src/index.js:74-95 | feeding `a` and then `b` cuts the same lines, leaves the same pending text and reaches the same blob state as feeding `a + b`, provided handling the lines of the first call throws nothing |
| Scenarios.SampleFieldStep | src/blobs/_testSampleBlob.js:8-14 | with the sample definition, a field line for a listed key stores the converted value and emits nothing |
| Scenarios.IdStep | src/blobs/_testSampleBlob.js:9-11 | an `id=` line stores the integer its digits denote |
| Scenarios.NameStep | src/blobs/_testSampleBlob.js:12 | a `name=` line stores the text after the first `=` unchanged |
| Scenarios.SampleRecord | test/index.js:27-28 | an `id`, `name`, `EOB` group emits one blob whose `id` is the integer and whose `name` is the text |
| Scenarios.RecordTextLines | src/index.js:79-94 | the text of such a group is cut into its three lines with nothing left pending |
| Scenarios.TwoRecords | test/index.js:26-29 | two groups in a row emit both blobs, in order |
| Scenarios.TruncatedBlobNotEmitted | src/index.js:84-94 | an `id` and a `name` line without `EOB` emit nothing; the blob holding the integer `id` and the text `name` stays in progress |

## Left out

- File and stream I/O (`setFile`, `fs.createReadStream`) and the binding of the stream handlers in `start` are Node APIs. Chunks reach the model as arguments of `ReadData`.
- The EventEmitter plumbing (`on`, `blob`, `complete`, `error`) and the forwarding of the stream's error and close events are left out. A `'blob'` event is modelled as an append to `emitted`, and `'end'` as the `ended` flag.
- `setDefinition` loads a definition file with `require`. The definition is passed to the constructor as a value instead.
- `isReady` only checks configuration, so it is left out.
- The `float` and `date` conversions (`parseFloat`, `new Date`) are floating-point and date-library behaviour. They are kept as opaque values holding the raw text (`FloatOf`, `DateOf`).
- JsString.ParseInt: JavaScript numbers are doubles, so integers beyond 2^53 lose precision there, and a digit run above about 1.8e308 gives `Infinity`, while the model returns the exact integer. The sign of `-0` is not kept either.
- Assembler.SplitPair: a Dafny string is a sequence of Unicode scalar values, while a JavaScript string is a sequence of UTF-16 code units. A delimiter outside the Basic Multilingual Plane, such as U+1F600, is one character in the model but two code units in the program. For it, `substr(index + 1)` leaves a lone low surrogate at the front of the value, while the model skips the whole delimiter. The split is modelled for delimiters made of characters inside that plane.
- Assembler.SplitPairRoundTrip: for the same reason, the round trip holds in the program only for a one-character delimiter inside the Basic Multilingual Plane. The lemma's premise `|delimiter| == 1` also admits a delimiter outside it, which the program leaves a lone surrogate for.
- JsString.ToLowerCase: lower-cases ASCII letters only. JavaScript also maps other Unicode letters.
- Coerce.ConvertValue: `structure` is a Dafny map. A key inherited by every JavaScript object is treated as missing, so the model throws. For keys such as `toString` or `constructor`, JavaScript finds no `type` on the inherited entry and stores the raw text. For `__proto__`, it returns the raw text, but the assignment to `currentBlob["__proto__"]` stores nothing.
- The order of the keys of an emitted JavaScript object is not modelled. A blob is a map.
- Stream.BlobStream.ReadData: a chunk that is a Buffer rather than a string is not modelled. The chunk is text that was already decoded. `setFile` opens the stream without an encoding, so every chunk is a Buffer. `streamData += data` decodes each chunk on its own, so a multi-byte UTF-8 character split across two chunks becomes U+FFFD. For such text, chunk boundaries are visible in the program, and `Stream.ChunkBoundariesInvisible` does not describe it.

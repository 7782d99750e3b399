# A verified model of ext-http's protocol core

ext-http is an HTTP extension for PHP written in C. This project models its byte-level core in Dafny 4.11
and proves what that core is for: what is printed can be parsed back, what is encoded can be decoded however
it is cut on the way, parsers can be resumed at any point, a requested range arrives as exactly those bytes,
and relinked chains keep every message.

`dafny verify dfyconfig.toml` checks everything.

## How it is laid out

Code that updates state step by step is a class or a method with loops, proved equal to a specification
function; the properties of whole runs are lemmas about those functions.

| files | what they hold |
|---|---|
| `Bytes`, `Decimals`, `HexNumbers` | bytes, line ends, decimal numerals, `strtoul` base 16 and `%lx` |
| `Buffers` | the growable buffer over an array, and runs of passes through it |
| `Chunked`, `ChunkGrammar`, `Dechunk`, `DechunkRuns` | the size-line loop shared by the streaming decoders, chunked text with extensions and what the loop makes of it, the stream decoder, all of its runs |
| `ChunkCoding`, `OneShot`, `Fragments` | the encoding filter, the decoding filter, the one-shot decoder; chunked text cut at will |
| `ParamText`, `ParamTable`, `ParamParser`, `ParamPrinter`, `ParamGrammar`, `ParamRoundTrip`, `ParamLimits`, `LinkHeaders` | quoting, tables, the tokenizer, the printer, parameters however they are spelled, the round trip and where it ends, links |
| `QueryTree`, `QueryRoundTrip`, `QueryLists` | nested tables: leaves, rebuilding path by path, the query string round trip; lists and keys that nest too deep |
| `HeaderNames`, `Messages`, `HeaderParser`, `HeaderLines`, `HeaderFolds`, `HeaderCuts`, `HeaderPrint` | canonical names, messages, the header state machine, its meaning line by line, folded values, heads cut anywhere, printing |
| `RangeHeader`, `MessageParser`, `ChunkedMessages`, `WholeMessages`, `KnownNames`, `MessageHeads` | the length a Content-Range states; the message state machine on its stack; bodies; whole messages and streams of them, from a fresh parser on; what heads say |
| `StreamResponse`, `ResponseHeaders`, `RangeScan`, `RangeResponse`, `EndToEnd` | the response operations, the header lines that go out, the Range scanner, slicing and regrouping, and responses sent and received, head and body |
| `MessageChains` | reversal, serialization and zipping of linked messages on the heap |
| `CodePoints` | the halving search for letters |

## Main results

- **Dechunking does not depend on fragmentation** (`DechunkRuns.FragmentationIndependent`): any successful run,
  with any flushes, with or without FLUSH_FULL, ends like one feed of everything. The condition on cuts is exact
  (`CutIsSafeIff`), and so is when a run succeeds (`Fragments.RunSucceedsIff`).
- **Chunked text is decoded whatever it looks like** (`ChunkGrammar.TextDecodes`): digits in either case, zeros in
  front, extensions, any line ends; by the stream decoder and the filter however it is cut (`FragmentsDecodeText`,
  `FilterDecodesTextFragments`) and by the one-shot decoder exactly if there are no extensions (`FindsChunksIff`).
- **Encoder and decoders fit** (`RoundTripIff`, `FilterDecodesEncoded`, `OneShotDecodesEncoded`). The one-shot decoder
  leaves its input exactly under a stated condition (`OneShot.LeavesDataIff`).
- **Whole messages** (`WholeMessages.LengthMessageEnds`, `ChunkedMessageEnds`, `DumbMessageEnds`): from a fresh parser,
  with head and body cut anywhere but where a stated condition says, the message ends with exactly its body, with a
  length, in chunks or without either, and leaves the rest. What heads say is exact too (`MessageHeads.FramingIff`,
  `RewrittenIs`). With GREEDY one call reads any stream of messages, without it each call reads one
  (`GreedyReadsAll`, `OneMessagePerCall`).
- **A range asked for is the range received** (`EndToEnd.RequestedRangeIsReceived`, `RangeIsReceived`): the Range
  header, slicing, regrouping, framing, the printed head, arbitrary cuts on the way and the message parser compose to
  `body[begin..end]` for every request, in chunks or not; and so for any finished response
  (`ChunkedResponseIsReceived`, `LengthResponseIsReceived`).
- **Parameters mean what they say however they are spelled** (`ParamGrammar.SpelledItemsParse`): white space around
  names and values, quotes or none, values with equals signs in them, repeated separators, repeated names, values in a charset and a language; so do links
  (`LinkHeaders.SpelledLinksParse`).
- **Parameters round-trip** (`ParamRoundTrip.ParamsSurviveIff`), extended ones included, and links do
  (`LinkHeaders.LinksRoundTrip`); `ParamLimits.BackslashBreaksIff` says exactly when, for a name or text behind which
  nothing is quoted; **query strings round-trip** (`QueryStringRoundTrip`).
- **Header blocks mean a fold over their lines** (`HeaderLines.FeedsAgree`), folded values are their texts with single
  spaces (`HeaderFolds.FoldedFieldsParse`), and cuts within lines make no difference (`HeaderCuts.HeadInPieces`).
  **Headers round-trip** whatever their values are nested in (`HeaderPrint.HeadersRoundTrip`), and a parsed table does
  if and only if no name is an integer key (`ReparsedIff`).
- **The message parser** terminates on every input, never returns midway, and at every pass of every run keeps at
  most three states on its stack and consumes what the pass before set aside (`NeverReturnsMidway`, `StackIsShallow`,
  `SetAsideIsConsumed`).
- **The response** writes one head, in front, in every run (`OneHeadFirst`), and nothing changes it afterwards
  (`HeadIsFrozen`). Its lines are exactly those that the calls before the start gave under each key
  (`ResponseHeaders.HeadLinesAreGiven`, `HeadLinesAreGrouped`), and it says chunked exactly where that is allowed
  (`HeadIsChunkedIff`).
- **The Range scanner** takes every list spec by spec, however it is spelled (`ScannerTakes`), and computes sections
  14.1.1 and 14.1.2 of RFC 9110 exactly where stated, for one spec (`SpecIsMeantIff`) and for lists (`ListIsMeantIff`).
- **The letter search** is membership exactly but for the entries it never looks at (`HalvingIsMembershipIff`).

## Where the code departs from what one would expect

Each of these is kept as the code has it, and the statement about it is exact.

- A CR at the end of the data is a whole line end (src/php_http_misc.h:89), so a LF that comes later is taken for
  the first byte of the chunk: `DechunkRuns.LfAfterCrBreaks`.
- An empty bucket is framed like the terminator (src/php_http_filter.c:251): `ChunkCoding.EmptyBlockTerminates`.
- Nothing, not even an empty piece, may be fed to the stream decoder after the terminating size line
  (src/php_http_encoding.c:281): `Fragments.RunSucceedsIff`.
- The one-shot decoder takes the length of the last line end again when a size is followed by a NUL or by the end of
  the data (src/php_http_encoding.c:78-87), and then goes on behind its input: `OneShot.LeavesDataIff`, with the
  shortest text that does in `OpenSizeLeavesData` and what a caller can look for in `StaysWithinData`.
- The one-shot decoder takes a chunk extension for data: `OneShot.FindsChunksIff` says exactly when it finds the chunks,
  and `ExtensionIsTaken` gives a text.
- A LF that comes in a later call than its CR ends the head of a message, as a CR alone is a line end
  (src/php_http_misc.h:89): `HeaderCuts.LateLfEndsHead`.
- With CLEANUP, a last line that ends at its colon leaves the header parser waiting for a value
  (src/php_http_header_parser.c:105 and 209-213): `HeaderCuts.PartIsTaken`.
- A body that neither has a length nor is in chunks is over with the first data behind the head, where section 6.3 of
  RFC 9112 reads a response until the connection closes (src/php_http_message_parser.c:420-429):
  `WholeMessages.DumbMessageEnds`.
- A parameter that is false is printed as `0`, and one that is null as nothing, and both are read back as texts
  (src/php_http_params.c:843-862): `ParamRoundTrip.ParamsSurviveIff`. A relation of a link that is merely true is
  printed as `"1"`: `LinkHeaders.TrueRelationIsOne`.
- The mark of an extended name stands behind its quotes (src/php_http_params.c:783-796), which then stay when it is
  read: `ParamLimits.ExtendedNameSurvivesIff`.
- The second backslash of a pair sets the escape flag again (src/php_http_params.c:701), so the closing quote of a
  name or text that ends in a backslash is missed: `ParamLimits.BackslashBreaksIff`.
- `0-` is ignored, and a suffix longer than the entity starts below zero (src/php_http_env.c:266-293):
  `RangeScan.SpecIsMeantIff`.
- A list of ranges is refused if one of its specs cannot be satisfied, where section 14.1.1 of RFC 9110 asks for at
  least one that can (src/php_http_env.c:296-324): `RangeScan.ListIsMeantIff` and `MixedListIsRefused`.
- The letter search never looks at the first range, the last range or the first character, so no capital ASCII
  letter is a letter: `CodePoints.CapitalsAreMissed`.
- Zipping into no chain loses the other one: the result is null (src/php_http_message.c:425-440).
- A header whose name is an integer key of the table is parsed but not printed (src/php_http_header.c:44-48):
  `HeaderPrint.ReparsedIff` and `IndexNameIsLost`.
- The body reader compares what it read with the size of a pointer where the size of its buffer seems meant
  (src/php_http_message_body.c:192); with full reads the comparison ends nothing early.

## Model

| member | source | states |
|---|---|---|
| Bytes.LocateBinEol | src/php_http_misc.h:82-96 | The scan returns the first CR or LF and its length: two for CR LF, one otherwise, also for a CR that ends the data. |
| HexNumbers.StrtoulReadsOneLine | src/php_http_encoding.c:351-365 | Reading a size depends on its own line only, whatever follows. |
| HexNumbers.StrtoulOfSpelling | src/php_http_encoding.c:357-359 | A size may have white space, a sign and 0x in front; a minus negates modulo 2^64, a size that is too great reads as the greatest, and reading stops right behind the digits. |
| HexNumbers.StrtoulOfHex | src/php_http_filter.c:251 | A size printed by the encoder reads back as that number and stops right behind it. |
| Buffers.GrownIsLeast | src/php_http_buffer.c:60-64 | The doubling loop ends at the least doubling of the base size that makes enough room. |
| Buffers.GrownIsTight | src/php_http_buffer.c:60-64 | After growing, the room left over is below the base size or below what was asked for. |
| Buffers.Buffer.constructor | src/php_http_buffer.c:16-33 | Starts empty, with the default size for 0, and with room only if preallocated. |
| Buffers.Buffer.Resize | src/php_http_buffer.c:51-83 | Keeps the content; grows by the computed size only when needed; a failed allocation changes nothing. |
| Buffers.Buffer.Account | src/php_http_buffer.c:85-94 | Bytes written behind the content become part of it. |
| Buffers.Buffer.Shrink | src/php_http_buffer.c:96-110 | Keeps the content and at most one byte of room. |
| Buffers.Buffer.Append | src/php_http_buffer.c:112-126 | The content is the old one followed by the new bytes; a reallocation leaves bounded room. |
| Buffers.Buffer.Data | src/php_http_buffer.c:148-162 | A copy of the content with a NUL behind it, and its length. |
| Buffers.Buffer.Cut | src/php_http_buffer.c:164-178 | Removes exactly the bytes at the offset, clipped at the end, and says how many. |
| Buffers.Buffer.Fix | src/php_http_buffer.c:180-190 | Puts a NUL behind the content without changing it, and makes room for it if there is none. |
| Buffers.Buffer.Reset | src/php_http_buffer.c:192-196 | Empties the content and keeps the allocation. |
| Buffers.Buffer.ChunkedInput | src/php_http_buffer.c:301-324 | Reads straight behind the content; a failed read leaves it as it was; a NUL follows it. |
| Buffers.Buffer.Passthru | src/php_http_buffer.c:275-299 | What is read is added, what the next stage takes is removed, and the result is their difference; failures keep the data. |
| Buffers.PassesConserve | src/php_http_buffer.c:275-324 | Over any run of passes what was handed on and what is held is what was held and read, in order, failures included. |
| Chunked.EagerSettles | src/php_http_encoding.c:301-319 | FLUSH_FULL makes no difference but for when the held part of a chunk is passed on. |
| Chunked.SafeCutSplits | src/php_http_encoding.c:276-401 | Decoding a prefix and then its rest with what follows is decoding all of it, unless a LF was cut from a size line's CR. |
| ChunkGrammar.SizeLineReads | src/php_http_encoding.c:346-368 | A size line gives its size whatever its digits look like, and the extension is cut out with it. |
| ChunkGrammar.TextDecodes | src/php_http_encoding.c:296-394 | The decoding loop takes any text of section 7.1 of RFC 9112, extensions included: the data of its chunks comes out, what is behind the last size line is left. |
| Dechunk.Decoder.Update | src/php_http_encoding.c:276-401 | One call of the loop computes the step function; the missing length never goes below zero. |
| Dechunk.Decoder.ReadSize | src/php_http_encoding.c:332-393 | The size-line part: skips line ends, waits for a line, fails on an unreadable one, ends at size 0. |
| Dechunk.Decoder.EndOfBody | src/php_http_encoding.c:369-385 | Behind the terminating size line only CR and LF are taken; the end is marked. |
| Dechunk.Decoder.Flush | src/php_http_encoding.c:403-421 | Passes on the held part of a chunk and waits for that much less. |
| Dechunk.DropLineEnds | src/php_http_encoding.c:336-344 | Removes the leading CR and LF bytes and nothing else. |
| DechunkRuns.RunMatches | src/php_http_encoding.c:276-421 | Every successful run, whatever its cuts and flushes, has decoded what its whole input says. |
| DechunkRuns.DoneIffTerminated | src/php_http_encoding.c:425-428 | Of a successful run, done means exactly that its input, taken as a whole, reaches a terminating size line. |
| DechunkRuns.FragmentationIndependent | src/php_http_encoding.c:276-421 | A successful run ends like one feed of all its input: the same output, missing length and leftover, under either flag. |
| DechunkRuns.CutIsSafeIff | src/php_http_encoding.c:351-368 | A cut is harmless for every continuation if and only if it is not right behind a size line's CR. |
| DechunkRuns.LfAfterCrBreaks | src/php_http_misc.h:82-96 | After such a cut the LF is counted as chunk data. |
| DechunkRuns.LeftoverIsSuffixOfFeed | src/php_http_message_parser.c:461-469 | At the terminator the decoder's leftover is a suffix of the data of that very call, so `used - leftover` does not underflow. |
| DechunkRuns.ResumableIsKept | src/php_http_encoding.c:296-421 | Between calls a chunk waited for is incomplete and a held line has no end. |
| Fragments.StopIsFinal | src/php_http_encoding.c:351-390 | What follows the terminating or an unreadable size line changes neither the verdict nor the output. |
| Fragments.RunSucceedsIff | src/php_http_encoding.c:276-401 | A run succeeds if and only if no size line of its input is unreadable and nothing is fed after the end. |
| Fragments.FragmentsDecodeText | src/php_http_encoding.c:276-421 | Chunked text with extensions, cut and flushed at will, is accepted if and only if nothing is fed after the end, and decodes to its data and the trailing bytes less leading CR and LF. |
| Fragments.FilterDecodesTextFragments | src/php_http_filter.c:88-218 | The decoding filter gives the data of such a text however it is cut into calls, whichever of them flush. |
| Fragments.FragmentsDecode | src/php_http_encoding.c:276-421 | The encoder's output, cut and flushed at will, is accepted if and only if nothing is fed after the end, and decodes to the blocks and the trailing bytes less leading CR and LF. |
| Fragments.FilterDecodesFragments | src/php_http_filter.c:88-218 | The decoding filter turns the encoder's output into the blocks however it is cut into calls, whichever of them flush. |
| ChunkCoding.ChunkedEncode | src/php_http_filter.c:228-275 | The loop over buckets writes the coding of section 7.1 of RFC 9112, with the terminator when closing. |
| ChunkCoding.EncodedIsText | src/php_http_filter.c:228-275 | The encoder's output is chunked text whose data are the blocks, with an empty line behind it. |
| ChunkCoding.StreamDecodesText | src/php_http_encoding.c:276-401 | The stream decoder on any chunked text in one call: its data, and the trailing bytes less leading CR and LF. |
| ChunkCoding.FilterDecodesText | src/php_http_filter.c:88-218 | The decoding filter on any chunked text in one call: its data, and what is behind the last size line stays buffered. |
| ChunkCoding.ClosingPassesPartOn | src/php_http_filter.c:209-218 | A filter that is closed within a chunk passes on what there is of it. |
| ChunkCoding.EncodedDecodes | src/php_http_encoding.c:296-394 | The decoding loop turns the coding of non-empty blocks into their concatenation and stops at the terminator. |
| ChunkCoding.StreamDecodesEncoded | src/php_http_encoding.c:276-401 | The stream decoder does so and keeps trailing bytes, less leading CR and LF. |
| ChunkCoding.EmptyBlockTerminates | src/php_http_filter.c:251-253 | With an empty block, decoding ends at the first one; the rest is left over. |
| ChunkCoding.RoundTripIff | src/php_http_filter.c:228-275 | Blocks survive encoding and decoding if and only if none is empty. |
| ChunkCoding.FilterDecoder.Process | src/php_http_filter.c:88-218 | One call of the decoding filter on any buckets computes the call function, flush and close included. |
| ChunkCoding.FilterDecoder.Loop | src/php_http_filter.c:117-207 | Its loop decodes what is buffered, bucket by bucket. |
| ChunkCoding.FilterDecoder.ReadSize | src/php_http_filter.c:159-206 | The size-line part of that loop: the terminator leaves no mark, an unreadable line fails. |
| ChunkCoding.FilterDecodesEncoded | src/php_http_filter.c:88-275 | The decoding filter undoes the encoding filter; the terminator's last line end stays buffered. |
| OneShot.DechunkOnce | src/php_http_encoding.c:29-108 | The pointer loop computes the decoding function, with its two ways out on unreadable input and the one behind the input. |
| OneShot.SkipTerminator | src/php_http_encoding.c:62-76 | Skips the run of '0', CR and LF at the end. |
| OneShot.OneShotDecodesText | src/php_http_encoding.c:29-108 | The one-shot decoder gives the data of chunked text without extensions; spaces behind a size are allowed. |
| OneShot.FindsChunksIff | src/php_http_encoding.c:15-27 | The loop finds the chunks of a text where they are if and only if no size is followed by anything but spaces. |
| OneShot.ExtensionIsTaken | src/php_http_encoding.c:78-98 | With the extension `;x` the data of a chunk is taken from inside its size line. |
| OneShot.OneShotTakesPart | src/php_http_encoding.c:89-101 | Of a chunk that breaks off what there is comes out, and all input is used. |
| OneShot.TrashIsRefused | src/php_http_encoding.c:40-60 | Text that does not start with a size is returned as it is; anything but a size behind chunks is refused. |
| OneShot.OneShotDecodesEncoded | src/php_http_encoding.c:29-108 | The one-shot decoder turns the encoder's output into the blocks and uses all of it. |
| OneShot.LeavesDataIff | src/php_http_encoding.c:78-98 | The loop leaves its input if and only if the chunks lead to a size that ends at a NUL or at the end of the data, too near to it for the line end of the chunk before. |
| OneShot.StaysWithinData | src/php_http_encoding.c:38-105 | Input without a NUL whose last byte is not a hex digit is never left. |
| OneShot.OpenSizeLeavesData | src/php_http_encoding.c:78-98 | A chunk with its line end and a size without one is left. |
| OneShot.DecodedFits | src/php_http_encoding.c:36-98 | What is decoded is never longer than the input, which is the room set aside for it. |
| ParamText.UnescapeEscape | src/php_http_params.c:53-90 | Stripping escapes undoes escaping on every text, control bytes and octal forms included. |
| ParamText.SanitizeQuoted | src/php_http_params.c:53-90 | A text, quoted if it needs to be, reads back as itself after trimming and unquoting. |
| ParamText.PrintedAsItIsIff | src/php_http_params.c:67-90 | A text is printed without quotes and escapes if and only if it holds no control character, no backslash and none of the special characters. |
| ParamText.TwoHexDigitsRead | src/php_http_params.c:53-64 | A backslash, `x` and two hex digits read as the one byte they name, whatever follows. |
| ParamText.OneHexDigitReads | src/php_http_params.c:53-64 | One hex digit that no other follows reads as the byte of its value. |
| ParamText.OtherByteReads | src/php_http_params.c:53-64 | A backslash in front of a byte that means nothing there is dropped. |
| ParamText.UrlDecodeEncode | src/php_http_params.c:128-139 | URL decoding undoes URL encoding, and encoded text holds none of the separators. |
| ParamText.UrlDecodesAnyForm | src/php_http_params.c:128-131 | URL decoding reads every URL encoding of a text: bytes as they are, a plus for a space, hex digits in either case. |
| ParamParser.Parser.CheckSep | src/php_http_params.c:645-660 | Finds a separator at the current place, never within quotes or after a backslash. |
| ParamParser.SepAtIs | src/php_http_params.c:641-660 | What is found is the first separator of the list whose bytes all stand at the place; empty ones never do. |
| ParamParser.Parser.SkipSep | src/php_http_params.c:662-676 | Skips separators until there is none. |
| ParamParser.Parser.Toggle | src/php_http_params.c:692-702 | Follows quotes, angles of link targets and backslashes. |
| ParamParser.Parser.Advance | src/php_http_params.c:691-762 | One pass of the tokenizer loop computes the step function. |
| ParamParser.Parser.ParseAll | src/php_http_params.c:678-767 | The loop terminates on every input and yields the table of the parse function. |
| ParamPrinter.ToString | src/php_http_params.c:934-996 | The printing loop writes the text of the print function for every table, flags and separators. |
| ParamPrinter.MarkStays | src/php_http_params.c:934-996 | Behind an extended parameter all are printed as if they were extended. |
| ParamPrinter.NestedIsFlat | src/php_http_params.c:865-906 | An argument that holds a table is printed as its name and then the entries, as arguments behind it. |
| ParamGrammar.TokenScan | src/php_http_params.c:691-762 | Any text, quoted or not and with white space around it, is scanned as one token, separators and quotes inside its quotes included, equals signs in a value without quotes too, if it does not end in a backslash or nothing follows it. |
| ParamGrammar.WordReads | src/php_http_params.c:247-280 | White space around a text, quotes and escapes are undone. |
| ParamGrammar.ExtendedReads | src/php_http_params.c:282-405 | A value in a charset and a language is decoded into a table from the language to its text. |
| ParamGrammar.ExtendedStopsAtNul | src/php_http_params.c:310-326 | What stands behind a NUL in an extended value is dropped. |
| ParamGrammar.Latin1IsRewritten | src/php_http_params.c:345-368 | A text in ISO 8859-1 becomes the UTF-8 of the same code points. |
| ParamGrammar.SpelledItemsParse | src/php_http_params.c:562-767 | However parameters are spelled, with white space around names and values, quotes or none, equals signs in values, repeated separators and extended values, the table is what they say, one after the other. |
| ParamGrammar.DefaultIsGiven | src/php_http_params.c:616-634 | A name alone gets the default value of the options, whatever that is. |
| LinkHeaders.SpelledLinksParse | src/php_http_params.c:691-702 | Links are parsed into the targets between their angles, whatever these hold, and their parameters. |
| LinkHeaders.LinksRoundTrip | src/php_http_params.c:810-932 | Parsing printed links gives them back: any targets without angles or spaces at their ends, arguments under names that need no quotes, and no truth values for those always quoted. |
| LinkHeaders.TrueRelationIsOne | src/php_http_params.c:826-836 | A relation that is merely true is printed and read back as the text `1`. |
| ParamRoundTrip.ParamsRoundTrip | src/php_http_params.c:562-996 | Parsing the printed form gives back every table in order: values and arguments true, text or extended, distinct non-empty names not ending in `*`, those of extended ones plain, and no name or text but the last one printed ending in a backslash. |
| ParamRoundTrip.ParamsSurviveIff | src/php_http_params.c:838-863 | Printing and parsing turns false into `0` and null into an empty text, so a table survives if and only if it holds neither. |
| ParamLimits.BackslashBreaksIff | src/php_http_params.c:692-702 | Let no name or text before the j-th of a table end in a backslash and none behind it need quotes: the table survives if and only if the j-th does not end in a backslash or is the last. |
| ParamLimits.ExtendedNameSurvivesIff | src/php_http_params.c:247-270 | A parameter with an extended value survives printing and parsing if and only if its name needs no quotes. |
| QueryTree.TreeRebuilds | src/php_http_params.c:440-560 | Merging the leaves of a tree one path at a time rebuilds the tree, in order. |
| QueryTree.KeySplits | src/php_http_params.c:141-194 | A bracketed key within the nesting limit splits into exactly its path; a plain key stays plain. |
| QueryRoundTrip.TableRebuilds | src/php_http_params.c:440-639 | Pushing the items of a table one after the other rebuilds the table, whatever was merged before. |
| QueryRoundTrip.QueryStringRoundTrip | src/php_http_params.c:141-245 | Every nested table of text leaves under non-empty, non-numeric, bracket-free keys within the nesting limit survives printing and parsing. |
| QueryLists.ListsAppend | src/php_http_params.c:440-560 | The same key with empty brackets given again and again makes a list of its texts under 0, 1, 2 and so on, in order. |
| QueryLists.FirstLeafIsReplaced | src/php_http_params.c:471-560 | A text for a whole table that is there already replaces its first leaf and leaves the others alone. |
| QueryLists.DeepKeyStays | src/php_http_params.c:141-194 | A key that nests deeper than the limit is not split. |
| QueryLists.HiddenKeysAreSkipped | src/php_http_params.c:200-245 | Entries whose key is empty or starts with a NUL are left out of what is printed, and the others are printed as without them. |
| HeaderNames.PrettyKey | src/php_http_misc.c:95-128 | The in-place rewrite computes the canonical form under both options. |
| HeaderNames.PrettyWord | src/php_http_misc.c:95-128 | A word becomes small, with a capital in front if titles are asked for. |
| HeaderNames.PrettyWords | src/php_http_misc.c:95-128 | Words between bytes that are no letters are rewritten one by one; of these bytes only `_` changes, to `-`, if asked for and not in first place. |
| HeaderNames.CanonicalIdempotent | src/php_http_misc.c:95-128 | The canonical form of a canonical name is itself. |
| HeaderNames.NamesCollideIff | src/php_http_misc.c:95-128 | Two names collide if and only if they differ only in case or in `_` versus `-` after the first byte. |
| HeaderParser.StepDecreases | src/php_http_header_parser.c:105-270 | Every pass uses bytes or lowers the rank of the state, on every input, with and without CLEANUP. |
| HeaderParser.Parser.Parse | src/php_http_header_parser.c:103-273 | The loop on the stack terminates and computes the run function. |
| HeaderLines.LineRuns | src/php_http_header_parser.c:128-265 | One line moves the parser as the fold over lines says: start line, field, continuation or failure. |
| HeaderLines.LineFailsIff | src/php_http_header_parser.c:143-164 | A line that is no start line and continues nothing is refused if and only if it does not begin with a token, as the standard defines it, and a colon. |
| HeaderLines.WholeFeed | src/php_http_header_parser.c:103-273 | One feed of any number of lines computes the fold: canonical names, pieces trimmed and joined by one space, repeats in order, empty values dropped. |
| HeaderLines.FeedsAgree | src/php_http_header_parser.c:103-273 | Line by line with a final CLEANUP, or all at once, the table, state and leftover are the same, and are the fold, up to the blank line. |
| HeaderLines.HeadFeed | src/php_http_header_parser.c:103-273 | Lines up to the blank one with anything behind them in the same feed: the fold, and what follows is left as it is. |
| HeaderLines.SpaceBeforeHead | src/php_http_header_parser.c:116-126 | White space in front of the first line is dropped, line ends included. |
| HeaderFolds.FoldedFieldsParse | src/php_http_header_parser.c:174-230 | The value of a field is the texts on its line and the lines that continue it, less the white space around them, with one space between two; blank pieces add nothing, and a field without a text is not stored. |
| HeaderFolds.HeadParses | src/php_http_header_parser.c:138-145 | A start line fills the newest message if this is blank and starts another otherwise; the fields behind it go to that message. |
| HeaderCuts.HeadInPieces | src/php_http_header_parser.c:103-273 | A head cut anywhere, but between a CR and its LF or within a start line, is waited for and then read as if it had come at once. |
| HeaderCuts.LateLfEndsHead | src/php_http_misc.h:82-96 | Between the CR and the LF of any line a cut ends the head there, with the field stored. |
| HeaderCuts.PartIsTaken | src/php_http_header_parser.c:209-216 | With CLEANUP a line without an end counts as a line, unless nothing is behind its colon. |
| HeaderCuts.NameAloneFails | src/php_http_header_parser.c:163-170 | A last line without a colon fails with CLEANUP and is waited for without. |
| HeaderPrint.FieldToString | src/php_http_header.c:98-127 | Prints a value of any kind, lists by recursion, with or without line ends. |
| HeaderPrint.PrintsWords | src/php_http_header.c:98-127 | Nested lists are printed like the flat list of their words, one line each, in order. |
| HeaderPrint.HeaderToString | src/php_http_header.c:39-96 | Prints the headers of the table in order, without integer keys. |
| Decimals.IndexIsNumeralIff | src/php_http_header.c:44-48 | A key is an integer key, and so not printed, if and only if it is the numeral of a 64-bit long. |
| HeaderPrint.TruthIsSpelled | src/php_http_header.c:153-165 | Truth values are printed as `true` and `false`, with or without a line end. |
| HeaderPrint.UnendedHeaderParses | src/php_http_header_parser.c:209-216 | A header printed without a line end is read back with CLEANUP. |
| HeaderPrint.TableParses | src/php_http_header_parser.c:103-273 | The lines of any table of canonical names, integer ones included, are parsed back into it. |
| HeaderPrint.HeadersRoundTrip | src/php_http_header.c:39-127 | Printing and parsing gives the words of every header in order, under all names but integer keys, for canonical names and trimmed values without CR, LF, NUL or `HTTP/`. |
| HeaderPrint.ReparsedIff | src/php_http_header.c:44-48 | Printing and parsing a parsed table gives it without the headers whose names are integer keys, and so the same if and only if there are none. |
| HeaderPrint.IndexNameIsLost | src/php_http_header.c:44-48 | The line `42: x` is parsed into a table that is printed as nothing. |
| MessageParser.StepIsGood | src/php_http_message_parser.c:194-530 | Every pass keeps the invariant and comes closer to the end, GREEDY and CLEANUP included, or returns at rest. |
| MessageParser.Run | src/php_http_message_parser.c:188-533 | The loop terminates on every input and flag set, at rest and in a state it may return. |
| MessageParser.Parser.Parse | src/php_http_message_parser.c:188-533 | The loop on the stack computes the run function and can be resumed. |
| MessageParser.NeverReturnsMidway | src/php_http_message_parser.c:163-168 | No call of any run returns HEADER_DONE, BODY, BODY_DONE or UPDATE_CL, so `abort()` cannot be reached. |
| RangeHeader.RangeLengthOfText | src/php_http_message_parser.c:331-361 | The length taken from a printed Content-Range is that of the range it states. |
| RangeHeader.RangeLengthIs | src/php_http_message_parser.c:331-361 | A range in any spelling of its unit, with a total or an asterisk, states the length of its positions if they are in order and do not exceed a known total, and none otherwise. |
| MessageParser.PassesAreTheRun | src/php_http_message_parser.c:194-530 | The passes listed for a call are those of its run: each leads to the next, the last to the end. |
| MessageParser.StackIsShallow | src/php_http_message_parser.c:60-76 | At every pass of every call of every run the stack holds at most three states. |
| MessageParser.SetAsideIsConsumed | src/php_http_message_parser.c:385-418 | In every run, `str`, `len` and `cut` found set were set by the pass before in the same call, and this pass, in BODY, writes and cuts them. |
| MessageParser.ChunkedBodyEnds | src/php_http_message_parser.c:448-478 | When a chunked body ends the buffer holds exactly the undecoded tail. |
| ChunkedMessages.MiddleCalls | src/php_http_message_parser.c:448-478 | While a chunked body goes on, the message grows by exactly what the decoder gives out. |
| WholeMessages.HeadIsRead | src/php_http_message_parser.c:210-382 | However a head is cut into calls, within its lines too, a fresh parser returns START or HEADER before its end, and from the call that ends it on does what a parser waiting for the body does with the rest. |
| WholeMessages.SpaceBeforeMessage | src/php_http_message_parser.c:210-224 | White space in front of a message is dropped; alone it leaves the parser as new. |
| WholeMessages.LengthMessageGoesOn | src/php_http_message_parser.c:366-446 | While a body of known length is incomplete, what is written and what is awaited add up to it, however the message is cut. |
| WholeMessages.LengthMessageEnds | src/php_http_message_parser.c:366-528 | The call that brings the n-th byte of the body, for n = 0 the one that ends the head, ends the message with exactly the first n bytes and leaves the rest less white space. |
| WholeMessages.BodilessMessage | src/php_http_message_parser.c:366-381 | A message without a body is over in the call that ends its head. |
| WholeMessages.DumbMessageEnds | src/php_http_message_parser.c:420-429 | Without a length, the call that brings the first data behind the head ends the message with exactly that data and leaves nothing; the calls before it wait. |
| WholeMessages.OverIs | src/php_http_message_parser.c:385-418 | A message that is over has its start line, its headers as rewritten and the body; what is left is in the buffer, less white space. |
| WholeMessages.ChunkedMessageEnds | src/php_http_message_parser.c:325-528 | A head that says chunked and any chunked text, extensions included, cut into calls at will, end as a message with the data of the chunks; what trails the text is left less white space. |
| WholeMessages.GreedyReadsAll | src/php_http_message_parser.c:514-528 | With GREEDY one call reads any stream of messages with bodies of both kinds, each with its own body, and ends as new. |
| WholeMessages.OneMessagePerCall | src/php_http_message_parser.c:514-528 | Without it every call reads one message of the stream and returns DONE. |
| MessageHeads.RewrittenIs | src/php_http_message_parser.c:256-282 | A head puts its Transfer-Encoding aside and then gives the length 0, or keeps the length under a second name; a Content-Range is joined into one value; all other headers stay. |
| MessageHeads.JoinedIs | src/php_http_message_parser.c:279-282 | Values are joined by a comma and a space. |
| MessageHeads.FramingIff | src/php_http_message_parser.c:322-382 | Exactly which heads give chunks, a length, no body, or a body as it comes: the one encoding chunked, then a range, then a length, then none for a request (section 6.3 of RFC 9112). |
| MessageHeads.NoBodyIff | src/php_http_message_parser.c:284-300 | With EMPTY_REDIRECTS a 3xx response with a Location and a Connection that says close has no body, and nothing else changes. |
| MessageHeads.CleanupEndsHead | src/php_http_message_parser.c:226-246 | With CLEANUP lines without the blank one are a whole head, and the body comes next. |
| MessageHeads.TailIsAppended | src/php_http_message_parser.c:480-512 | What finishing the decoder yields ends the body, and the Content-Length becomes that of all. |
| StreamResponse.Response.constructor | src/php_http_env_response.c:843-867 | Starts open, with the version of an HTTP/1.0 request. |
| StreamResponse.Response.WriteHeader | src/php_http_env_response.c:880-902 | Collects the lines in order and says whether one is a Content-Length. |
| StreamResponse.Response.Start | src/php_http_env_response.c:904-946 | Writes the head once and decides the framing, or fails without effect. |
| StreamResponse.Response.SetStatusCode | src/php_http_env_response.c:954-964 | Sets the status, or fails without effect once started. |
| StreamResponse.Response.SetProtocolVersion | src/php_http_env_response.c:966-976 | Sets the version, or fails without effect once started. |
| StreamResponse.Response.PutHeader | src/php_http_env_response.c:978-1012 | Replaces or adds a line under the text before its colon, or fails without effect. |
| StreamResponse.Response.DeleteHeader | src/php_http_env_response.c:1036-1045 | Removes the entry, or fails without effect once started. |
| StreamResponse.Response.WriteData | src/php_http_env_response.c:1047-1064 | Starts if needed and writes the data, framed as the head says; fails once finished. |
| StreamResponse.Response.FlushOut | src/php_http_env_response.c:1066-1079 | Starts if needed; fails once finished. |
| StreamResponse.Response.FinishUp | src/php_http_env_response.c:1081-1103 | Starts if needed, ends a chunked body, and finishes once. |
| StreamResponse.RunKeepsOrder | src/php_http_env_response.c:880-1103 | Every operation of every run only adds to a wire that is a head, then data framed as it says, then the end of a chunked body. |
| StreamResponse.HeadToBuffer | src/php_http_env_response.c:904-937 | Puts the head together: status line, header lines, the line that announces chunks, the blank line. |
| StreamResponse.HeadIsFrozen | src/php_http_env_response.c:954-1045 | Once the response has started, no later operation of the run changes the head on the wire, the status, the version or the headers. |
| StreamResponse.OneHeadFirst | src/php_http_env_response.c:904-946 | One head, in front of all data; never chunked for HTTP/1.0, 1xx, 204, 2xx to CONNECT or with a Content-Length (section 3.3.1 of RFC 7230). |
| StreamResponse.HeadIsChunkedIff | src/php_http_env_response.c:904-946 | The head says chunked if and only if its version is not 1.0, its status is neither 1xx nor 204 nor 2xx to CONNECT, and no line gives a length (section 3.3.1 of RFC 7230). |
| ResponseHeaders.HeadLinesAreGiven | src/php_http_env_response.c:978-1045 | In every run, under each key the head has the line of the last call that set it, unless it was removed later, and those of the later calls that added to it, in order. |
| ResponseHeaders.HeadLinesAreGrouped | src/php_http_env_response.c:880-902 | The lines go out key by key, in the order in which the keys came in. |
| ResponseHeaders.HeadStatusIsGiven | src/php_http_env_response.c:843-976 | The head has the status and the version that were set last before the start, and 200 and that of the request otherwise. |
| StreamResponse.BodyReadsBack | src/php_http_env_response.c:1047-1103 | The bytes behind the head of a finished response read back as the data written, through the decoder if the head says chunked. |
| RangeScan.GetRequestRanges | src/php_http_env.c:201-345 | The character loop computes the scan function for every header. |
| RangeScan.ScannerTakes | src/php_http_env.c:215-344 | Lists with zeros in front of positions and spaces anywhere are taken spec by spec, for every length of the entity. |
| RangeScan.ForeignBytesSpoil | src/php_http_env.c:337-339 | A list with any other byte yields no ranges. |
| RangeScan.ScannerJudges | src/php_http_env.c:215-344 | On every printed list of specs the scan judges spec by spec. |
| RangeScan.SpecIsMeantIff | src/php_http_env.c:256-335 | One spec is taken as section 14.1.2 of RFC 9110 means it if and only if it is neither `0-` nor a suffix longer than the entity. |
| RangeScan.ListIsMeantIff | src/php_http_env.c:215-344 | A list is taken as sections 14.1.1 and 14.1.2 of RFC 9110 mean it if and only if all specs can be satisfied and none departs, or none can be satisfied, or one is invalid and one that cannot be satisfied comes before any `0-`. |
| RangeScan.MixedListIsRefused | src/php_http_env.c:296-324 | `0-4,900-` of 100 bytes is refused, where the standard serves the first range. |
| RangeScan.ScannerMeansRfc | src/php_http_env.c:215-344 | Without departures: all ranges, clipped, if every spec can be satisfied, an error otherwise, and every range within bounds. |
| RangeResponse.RegroupingHolds | src/php_http_buffer.c:217-273 | Between calls less than a block is held, every block out is full, and nothing is lost. |
| RangeResponse.RegroupingKeepsData | src/php_http_env_response.c:244-277 | After the closing call the blocks concatenate to the data and all but the last are full. |
| RangeResponse.WholeBodyIsSent | src/php_http_message_body.c:173-203 | Without a range the blocks that are sent are all of the body. |
| RangeResponse.Sender.ChunkBuffer | src/php_http_buffer.c:217-247 | One full block if there is one, everything for size 0, nothing otherwise. |
| RangeResponse.Sender.ChunkedOutput | src/php_http_buffer.c:249-273 | Passes out all full blocks and keeps the rest; stops at a failed write. |
| RangeResponse.Sender.SendData | src/php_http_env_response.c:244-272 | Regroups into blocks of the chunk size and writes the full ones. |
| RangeResponse.Sender.SendDone | src/php_http_env_response.c:274-277 | Passes out what is held. |
| RangeResponse.Sender.BodyToCallback | src/php_http_message_body.c:173-203 | Reads the slice in pieces and sends each of them in order. |
| RangeResponse.Sender.SendRange | src/php_http_env_response.c:603-616 | Status 206, Content-Range, the slice and the end, in that order. |
| RangeResponse.RangeWire | src/php_http_env_response.c:422-436 | The wire of a range response: one head with 206 and the Content-Range, then the blocks of the slice. |
| RangeResponse.RangeIsChunkedIff | src/php_http_env_response.c:904-946 | A range is sent in chunks if and only if the request is neither HTTP/1.0 nor a CONNECT. |
| RangeResponse.SliceIsServed | src/php_http_env_response.c:422-436 | For every body, range within it and block size, the head has 206 and the bounds, and the body on the wire reads back as the slice. |
| RangeResponse.RangeIsServed | src/php_http_env_response.c:603-616 | For every body and spec the standard satisfies, the scanner finds the range, the head states its bounds, and the body on the wire reads back as exactly that slice. |
| EndToEnd.StreamIsEncoded | src/php_http_env_response.c:1047-1103 | What follows the head of a finished response is the encoder's output for the blocks written, or the blocks as they are. |
| EndToEnd.RangeIsSent | src/php_http_env_response.c:603-616 | What a range response sends behind its head: the encoder's output for blocks that make up the range, or the range itself. |
| EndToEnd.HeadIsGiven | src/php_http_env_response.c:904-937 | The printed head of a response, its lines spread over calls at will, is read as its status line and its table of headers. |
| EndToEnd.ChunkedResponseIsReceived | src/php_http_message_parser.c:211-528 | Any finished response in chunks is received, from the status line on and however it is cut, with its headers and the data written. |
| EndToEnd.PlainResponseIsReceived | src/php_http_message_parser.c:211-528 | The same for one that is not in chunks and whose head gives the length of its data. |
| EndToEnd.LengthResponseIsReceived | src/php_http_env_response.c:880-902 | A response with a Content-Length is never in chunks and is received with the data written. |
| EndToEnd.RangeIsReceived | src/php_http_message_parser.c:211-528 | A range sent in answer to any request is received as exactly those bytes, in chunks or by its Content-Range, however head and body are cut. |
| EndToEnd.RangeIsReceivedAtOnce | src/php_http_message_parser.c:211-528 | The whole wire in one call: one message more with the headers and the slice, and what trails it less white space. |
| EndToEnd.RequestedRangeIsReceived | src/php_http_env.c:201-345 | From the Range header on: for every body and spec the standard satisfies, the range is found, sent and received. |
| MessageChains.Count | src/php_http_message.h:74-83 | The number of messages on the chain. |
| MessageChains.Reverse | src/php_http_message.c:401-423 | The relinked chain is the reversed one and ends. |
| MessageChains.ReversedTwice | src/php_http_message.c:386-391 | Reversing twice restores the order. |
| MessageChains.Serialize | src/php_http_message.c:378-399 | Prints the oldest message first and leaves the chain as it was. |
| MessageChains.InterleaveKeepsAll | src/php_http_message.c:425-441 | The interleaving holds every message of both chains exactly as often. |
| MessageChains.Zip | src/php_http_message.c:425-441 | The relinked chain is the exact interleaving with the longer tail kept, without a cycle; null when there is no chain to zip into. |
| CodePoints.SearchRanges | src/php_http_utf8.h:311-337 | The halving search terminates within the table and finds exactly what the entries it can look at contain. |
| CodePoints.SearchChars | src/php_http_utf8.h:342-363 | The same for single characters. |
| CodePoints.IsAlpha | src/php_http_utf8.h:309-368 | True exactly for what either search can find. |
| CodePoints.IsAlnum | src/php_http_utf8.h:370-377 | Digits, or what the search can find. |
| CodePoints.HalvingIsMembershipIff | src/php_http_utf8.h:309-368 | The search agrees with membership if and only if the code point is not in the first range, the last range or the first character. |
| CodePoints.HalvingIsMembershipBetween | src/php_http_utf8.h:309-368 | Strictly between the first and the last range and above the first character it is membership, for all sorted tables. |
| CodePoints.CapitalsAreMissed | src/php_http_utf8.h:45-46 | With the shipped first range no capital ASCII letter is found, although all are listed. |

## Left out

- Machine integers: lengths and `long` values are unbounded, but for `strtoul`, whose 64-bit saturation and negation are modelled.
- Allocation failure is a parameter of the one resize that may report it; elsewhere allocation succeeds, as the allocator either succeeds or ends the process.
- PHP's addcslashes, stripcslashes, rawurlencode and rawurldecode are small explicit functions written from PHP's documentation.
- Parameters: targets of links with values, and link arguments under names that need quotes, are not part of the round trip; an argument without a parameter is dropped; integer keys in nested tables are excluded from the query string round trip, since index 0 is merged by appending; lists under empty brackets are covered by `QueryLists.ListsAppend`.
- ParamPrinter.ToString: a parameter is always a table with a value and arguments; entries that are plain values, and tables without a value or without arguments, which are printed as arguments themselves, are not modelled.
- ParamLimits.BackslashBreaksIff: says nothing of a name or text that ends in a backslash in front of quoted ones, where a later quote can end the swallowed part.
- `php_http_info_parse` is an arbitrary function of a start line; what is proved of printed headers asks that it wants `HTTP/` in a line, and what is proved of received responses that it knows their status line. URL and version parsing are not modelled.
- MessageParser.StepIsGood: Content-Encoding and the inflate stream, which stays set for later messages, are not modelled, nor are its failures. PHP's conversion of a header to an integer and the test for `close` are function parameters. A head without any line is taken for a blank message.
- MessageParser.Run: the same.
- MessageParser.Parser.Parse: the same.
- WholeMessages.HeadIsRead: no cut is within a start line, as `php_http_info_parse` accepts an unterminated one; the calls before the end of the head come without CLEANUP, which would end it.
- WholeMessages.ChunkedMessageEnds: asks that finishing the decoder yields nothing, as the dechunk operations have no finish function.
- RangeHeader.RangeLengthOfText: where a Content-Range stops early its reader looks behind the end of the text; the model reads nothing there.
- RangeResponse.Sender.SendRange: conditional headers, the content type, caching and the other options of the head are not modelled.
- Stream reads and writes succeed and reads are full; the reader's and the next stage's counts in `Buffers` are parameters.
- The chunk buffer of the sender is a byte sequence there; that the growable buffer behaves as one is proved in `Buffers`.
- Responses with several ranges, content encoders, throttling delays, cookies and the SAPI operations.
- Multipart bodies, `php_http_querystring_update`, negotiation, `utf16towc`, the buffer functions compiled out by default, and reading from streams in both parsers.
- The wrappers around libcurl, libevent, zlib and brotli, and PHP class registration.

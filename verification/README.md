# SpySocket: a verified model of its protocol core

SpySocket is an HTTP/1.1 server in C++98 on top of epoll. This project models the parts of it that hold algorithmic
state, and proves what they promise: the incremental request parser and the chunk decoder it drives, the chunk encoder,
the connection lifecycle of the event loop, URI normalisation with the searches for a location and the path guard, the
detector of redirection loops, and the calendar arithmetic behind the `Date` header.

Code that updates state in place is an object here as well: `ParsingRequest`, `ChunkDecoder` (the function statics of
`refactor_data` as the fields of one object per stream), `WholeDecoder`, `Client`, `Get` and `Servers`. Loops are loops.
Each method is proved against a function on values, and the results are lemmas about these functions.

## The results

- **The parser does not see how TCP cuts the stream** (`SplitIndependence`). `SplitFeed` says exactly when two calls of
  `feed_data` are one; `RejectedSizeSplits` is the family for which they are not.
- **Requests in, the same requests out** (`Pipelining`, `Stream`, `PrintedStreams`). However a stream of requests is cut
  and however feeds and resets alternate, the requests parsed are the ones printed, in order. `CutAnywhere` gives the
  exact bound on the head, `StreamParsed` exactly which pieces serve how
  many requests.
- **Two framings, one body** (`Framing`, `PrintedRequests`): when they give it, exactly, and the letter case for which
  they do not. **Encode, cut, decode** (`ChunkedSending`).
- **The rules for header maps** (`HeaderRules`, `ContentTypes`, `PrintedChecks`): exactly which are accepted, and for
  printed requests in any pieces the code with which the others are refused, both framings at once among them.
- **The length that cuts a body** (`BodyLength`): when it is the one that was checked, exactly.
- **Two chunk decoders agree** on every input on which the whole-buffer one stays in bounds (`WholeBuffer`).
- **Exactly-once delivery** over every run of the event loop with arbitrary partial, blocked and failing sends
  (`EventLoop`), down to `PrintedServed`: what the handler is given is what the client meant.
- **Which connections are closed, and which are kept** (`Closing`, `EventLoop`): over every run, by what the header blocks
  say and not by the parser's flag, and exactly when a step closes one (`StaysOpen`).
- **Normal forms and searches** (`Uri`, `PathSecurity`, `Locations`): the segment-cutting searches find the longest
  configured ancestor, the exact relation to the prefix search, and exactly when a query makes DELETE's two searches part.
- **Redirection loops** (`Redirects`): the check ends, rejects exactly the configurations with a repeating chain, and
  lets no cycle through, however many servers there are.
- **Calendar** (`Calendar`, `Fixdate`): the loops invert the closed-form day count, and the printed date reads back.

The modules follow the program: `Text` and `HexSize` at the bottom, `ChunkDecoder`, `ChunkedMessage`, `ChunkedSending`
and `WholeBuffer` for chunks, `Uri`, `Headers`, `Checks` and `Parser` for the request, `SplitIndependence`, `Framing`,
`PrintedRequests`, `Pipelining`, `Stream` and `PrintedStreams` for its properties, `HeaderRules`, `ContentTypes`,
`PrintedChecks` and `BodyLength` for what header maps mean, `Closing` and `EventLoop` for the connections.
`dafny verify dfyconfig.toml` checks everything.

## What the code does, where one might expect otherwise

- `reset` keeps the unread bytes, but nothing parses them before the next `recv`: a pipelined request that has arrived
  complete waits until the client sends more (`Stream.SecondLiesUnparsed`). `Stream.StreamParsed` says which pieces serve
  a whole stream.
- A header block is refused with 431 only while its end is missing: the same head passes when it arrives in one piece.
  The bound is on what is buffered, 8 KiB (`Stream.CutAnywhere`, `Framing.BadCutRefused`).
- `hex_to_dec` takes lower-case digits only; -1 becomes the largest `size_t`, adding two to it wraps to one, and the
  decoder then copies all it holds. This is in the model, and the one way in which a cut behind which the
  parser asks for more can change the result.
- Bytes behind the last size line are dropped only up to the next CRLF; what is left becomes part of the body
  (`ChunkedMessage.TailDropped`), also a request pipelined behind it (`Framing.NextJoinsBody`).
- The decoder looks for the spelling `Transfer-Encoding`, the parser for any letter case. In another spelling the request
  is complete with its head, and the body is whatever came with it, framing included (`Framing.SpellingDecides`,
  `Framing.UnspelledPieces`, `PrintedStreams.LowerCaseHead`).
- A directive of the content type is stored in the header map like a field, so it can replace `content-length` after that
  has been checked. The expected length is then read from the replacement (`BodyLength.ExpectedLength`,
  `BodyLength.ReplacedLengthCuts`). It can replace `host` as well, by which the server is picked (`BodyLength.HostLeft`).
- The guard on paths finds dots that are encoded once more than the decoding undoes, and those alone, in an accepted
  target (`Locations.AcceptedIsForbidden`). For DELETE nothing catches what it throws.
- Nothing calls `setupChunkedSending` or `unchunk_data`, and `chunkSize`, which the former reads by, is never set to
  anything but 0. `ChunkedSending` and `WholeBuffer` say what these functions do when they are called, for reads of any
  length.
- `checkIfAllowed` does not strip the query, `mapUriToPath` does (`Locations.DeleteAgrees`, `Locations.DeleteWithQuery`).
- `matchLocation` and `mapUriToPath` throw `out_of_range` on a path without leading slash; the answer `OutOfRange` stands
  for it (`Locations.OutOfRangeExactly`).
- A failed `send` is ignored for GET and closes the connection for every other method (`EventLoop.StaysOpen`).
- The search of the redirection check clears its flag at a target outside but keeps the target: a later server without a
  return for the path makes the chain go on with it (`Redirects.NextMeans`).
- An escape without two digits decodes to something all the same (`Uri.OddEscape`).

## Model

| member | source | states |
|---|---|---|
| `Parser.ParsingRequest.FeedData` | src/Parsing/parsing_request.cpp:882-957 | The while loop with its switch ends on every input and leaves exactly the answer and the state of the specification `Feed`; the invariant `Valid` is kept |
| `Parser.ParsingRequest.TakeTurn` | src/Parsing/parsing_request.cpp:907-948 | One pass of the switch: the `parse_*` function of the current phase, the next phase, and whether the call answers PARSE_AGAIN |
| `Parser.ParsingRequest.ReadStartLine` | src/Parsing/parsing_request.cpp:209-234 | The start line is cut at the next CRLF and checked; every error has its code and its effect on `connection_status` |
| `Parser.ParsingRequest.ReadHeaders` | src/Parsing/parsing_request.cpp:294-437 | The header block up to the blank line, 431 beyond 8 KiB, the getline loop, the seven checks, the expected length |
| `Parser.ParsingRequest.ReadBody` | src/Parsing/parsing_request.cpp:806-880 | Which of the two framings reads the body, or none |
| `Parser.ParsingRequest.ReadChunks` | src/Parsing/parsing_request.cpp:806-846 | The chunked branch: the decoder gets the bytes it has not seen, from the first byte of the buffer on |
| `Parser.ParsingRequest.ReadSized` | src/Parsing/parsing_request.cpp:847-876 | The Content-Length branch, with the rejection of a lower-case letter behind the body |
| `Parser.ParsingRequest.ResetParser` | src/Parsing/parsing_request.cpp:959-986 | `reset`: everything starts anew but the unread bytes |
| `Parser.ParsingRequest.Error` | src/Parsing/parsing_request.cpp:59-80 | An error sets the code and the phase, and where the code does so `connection_status` |
| `Parser.ParsingRequest.constructor` | inc/parsing_request.hpp:69-73 | A new parser is in the reset state |
| `Parser.TurnValid` | src/Parsing/parsing_request.cpp:905-950 | A turn keeps the invariant and lowers the phase, or it waits or fails; the buffer stays unless it fails: the loop of `feed_data` ends |
| `Parser.FeedValid` | src/Parsing/parsing_request.cpp:882-957 | PARSE_OK exactly in the complete phase, PARSE_ERROR_RESULT exactly in the error phase; without an error the buffer is what it was plus the new bytes |
| `Parser.FeedHasHost` | src/Parsing/parsing_request.cpp:704-771 | After PARSE_OK a start line and the key `host` are there, so the lookups with `at` cannot throw |
| `Checks.AcceptedHasHost` | src/Parsing/parsing_request.cpp:408-437 | A header block that passes all checks names the host: no later check removes it |
| `Checks.CheckContentTypeLoop` | src/Parsing/parsing_request.cpp:490-606 | The content-type check with its loop over the directives, each of which is also stored in the header map |
| `Checks.DirectivesLoop` | src/Parsing/parsing_request.cpp:511-547 | The do-while loop meets its specification for both maps it fills |
| `Checks.CheckAllInTurn` | src/Parsing/parsing_request.cpp:408-418 | The checks run in order and stop at the first failure |
| `Checks.CheckHostLoop` | src/Parsing/parsing_request.cpp:704-771 | The host check with its loop over the digits of the port |
| `Checks.CheckContentLengthLoop` | src/Parsing/parsing_request.cpp:637-702 | The length check with its loop over the digits |
| `Checks.CheckLocationLoop` | src/Parsing/parsing_request.cpp:236-292 | The location check with its loop over the characters |
| `Checks.ContentTypeKeeps` | src/Parsing/parsing_request.cpp:490-606 | The content-type check only ever adds keys to the header map |
| `HeaderRules.Judged` | src/Parsing/parsing_request.cpp:408-437 | Exactly which header maps are accepted, rule by rule, and the code of the first rule another one breaks; an accepted one keeps the connection if and only if it does not say `connection: close`, and each framing flag is set if and only if its key is there |
| `HeaderRules.BlockJudged` | src/Parsing/parsing_request.cpp:294-437 | The same for a header block; a block without a map is refused with 400 |
| `HeaderRules.AcceptedBlock` | src/Parsing/parsing_request.cpp:419-426 | An accepted block never has both framings, and a multipart type has a boundary among its own directives that is not empty |
| `HeaderRules.HostRule` | src/Parsing/parsing_request.cpp:704-771 | Accepted is a host that is not empty and, if it has a colon, has a port from 1 to 65535 behind its first one |
| `HeaderRules.DecimalMeans` | src/Parsing/parsing_request.cpp:637-702 | What a run of decimal digits is, and its value, for lengths and ports |
| `HeaderRules.ConnectionRule` | src/Parsing/parsing_request.cpp:608-635 | `keep-alive`, `close` or no field; kept unless `close` |
| `HeaderRules.TypeRule` | src/Parsing/parsing_request.cpp:490-606 | The content type by its media type and its own directives, with the code of each refusal |
| `ContentTypes.TypeJudged` | src/Parsing/parsing_request.cpp:490-606 | A content type printed from a media type and any parameters, with any optional blanks: accepted exactly when a charset is one of two, a multipart type has a boundary that is not empty, and the media type is known; 415, 400 and 415 otherwise |
| `ContentTypes.ParametersRead` | src/Parsing/parsing_request.cpp:511-547 | The directives of a printed content type are its parameters, of two with one key the last |
| `PrintedChecks.PrintedType` | src/Parsing/parsing_request.cpp:490-606 | The same of a printed request beside any accepted fields, in any pieces whose cuts fit: complete, or refused with that code |
| `PrintedChecks.MultipartAnswers` | src/Parsing/parsing_request.cpp:571-591 | `multipart/form-data` is accepted with every boundary that is not empty, and refused with 400 without one or with an empty one |
| `PrintedChecks.CharsetAnswers` | src/Parsing/parsing_request.cpp:549-562 | A charset is accepted if it is `utf-8` or `iso-8859-1`, and refused with 415 otherwise |
| `PrintedChecks.PrintedRefused` | src/Parsing/parsing_request.cpp:408-437 | Printed fields that break a rule, in any pieces, whatever follows: the request fails with the code of the rule if the cuts in its head fit, and with 431 otherwise |
| `PrintedChecks.PrintedAccepted` | src/Parsing/parsing_request.cpp:408-437 | Printed fields that keep the rules, and no body: the request is complete in any pieces whose cuts fit, and is to be kept open unless its fields say `close` |
| `PrintedChecks.BothFramingsRefused` | src/Parsing/parsing_request.cpp:419-426 | Section 3.3.3 of RFC 7230: fields that hold both framings, in any order, are refused with 400, or with the code of a rule they break as well |
| `PrintedChecks.BothFramings` | src/Parsing/parsing_request.cpp:419-426 | So a request that is fine but for having both `Content-Length` and `Transfer-Encoding: chunked` fails with 400 in any pieces whose cuts fit |
| `PrintedChecks.RuledFields` | src/Parsing/parsing_request.cpp:392-405 | Each field the rules look at is in the map if and only if it was printed, with its last value |
| `Headers.ReadBlockLoop` | src/Parsing/parsing_request.cpp:317-405 | The getline loop over the block computes the map, or reports the malformed line |
| `Headers.ReadLineLoop` | src/Parsing/parsing_request.cpp:321-391 | One line: the carriage return, the colon, the name rules, trimming and lower-casing |
| `Headers.PrintThenRead` | src/Parsing/parsing_request.cpp:314-406 | Section 3.2 of RFC 7230: printing any well-formed fields, with any blanks or none before and behind their values, and reading the block back gives their meaning, whatever the case of their names |
| `Headers.LastValueWins` | src/Parsing/parsing_request.cpp:392-405 | The meaning maps each lower-cased kept name to its last value, trimmed and lower-cased, and nothing else |
| `Headers.TrimMeans` | src/Parsing/parsing_request.cpp:387-388 | Trimming cuts exactly the blanks at both ends |
| `Headers.PrintBlockEnds` | src/Parsing/parsing_request.cpp:298-315 | A printed block holds no blank line: the first one is the one behind it |
| `Headers.TrimSkipsBlanks` | src/Parsing/parsing_request.cpp:387-388 | Blanks around a value do not matter |
| `Headers.LineRead` | src/Parsing/parsing_request.cpp:321-405 | What a line with a good name gives, whatever bytes stand behind its colon, with or without a carriage return at its end |
| `Headers.LineRefused` | src/Parsing/parsing_request.cpp:321-385 | Exactly which lines are malformed: those that are not empty and do not begin with a token and a colon |
| `Headers.BlockRefused` | src/Parsing/parsing_request.cpp:317-405 | A block is refused exactly when one of its lines is malformed |
| `Headers.NameCharMeans` | src/Parsing/parsing_request.cpp:364-376 | The characters of a name are those of a token, section 3.2.6 of RFC 7230 |
| `SplitIndependence.SplitFeed` | src/Parsing/parsing_request.cpp:882-957 | Split independence: after PARSE_AGAIN, feeding `b` answers what feeding `a + b` at once answers; above 10 MiB both fail with 413, otherwise the states are equal if and only if the first piece put no data behind a size line whose value wraps, as a rejected one does, or `b` is empty |
| `SplitIndependence.AnyCutting` | src/Parsing/parsing_request.cpp:882-957 | Any cutting whose proper prefixes make the parser ask for more is equivalent to one piece, and each piece but the last answers PARSE_AGAIN |
| `SplitIndependence.FeedPieces` | src/Parsing/parsing_request.cpp:882-957 | Feeding piece by piece keeps the invariant |
| `SplitIndependence.SplitDrive` | src/Parsing/parsing_request.cpp:905-950 | The same for the loop: going on later is having had the bytes at once, but for the bytes that wrapped steps copy, which are counted exactly |
| `SplitIndependence.RejectedSizeSplits` | src/POST/unchunk.cpp:186-232 | The failing family: behind any size line `hex_to_dec` rejects, one more byte makes the result depend on the cut |
| `ChunkDecoder.ChunkDecoder.RefactorData` | src/POST/unchunk.cpp:129-259 | `refactor_data` on the decoder object: the answer, the appended bytes and the new state are those of `Decode` |
| `ChunkDecoder.ChunkDecoder.AcceptData` | src/POST/unchunk.cpp:138-177 | The new bytes go behind what is held, and the headers are cut off once they are complete |
| `ChunkDecoder.ChunkDecoder.DecodeLoop` | src/POST/unchunk.cpp:181-232 | The `while (true)` loop ends and computes `DecodeChunks` |
| `ChunkDecoder.ChunkDecoder.Finish` | src/POST/unchunk.cpp:191-212 | Behind the last size line: bytes up to the next CRLF are dropped, what is left stays to be appended |
| `ChunkDecoder.ChunkDecoder.Reset` | src/POST/unchunk.cpp:117-121 | The reset state |
| `ChunkDecoder.DecodeChunksSplit` | src/POST/unchunk.cpp:181-232 | For any buffer on which the loop waits: what comes later joins with what was there, the wrapped steps counted |
| `ChunkDecoder.DecodeSplit` | src/POST/unchunk.cpp:129-259 | The same for a call: two calls are one call on both pieces, from any state |
| `ChunkDecoder.KeepsHeaders` | src/POST/unchunk.cpp:181-232 | While the decoder waits it keeps its headers, is not complete and holds no more than before |
| `ChunkedMessage.DecodeFramed` | src/POST/unchunk.cpp:181-232 | The loop decodes every well-formed list of chunks to their data, and says what bytes behind the last size line do |
| `ChunkedMessage.DecodeMessage` | src/POST/unchunk.cpp:129-259 | The same from the reset state with the headers in front |
| `ChunkedMessage.TailDropped` | src/POST/unchunk.cpp:193-209 | What stands behind the last size line adds nothing to the body if and only if it is empty or ends with its first CRLF |
| `ChunkedMessage.MessageWaits` | src/POST/unchunk.cpp:170-232 | Every proper prefix of the message up to the last size line waits, without wrapped steps |
| `ChunkedMessage.PiecesAreOne` | src/POST/unchunk.cpp:129-259 | Any cutting that falls where the decoder waits is one piece |
| `ChunkedMessage.DecodePieces` | src/POST/unchunk.cpp:129-259 | In any pieces that do not cut the final CRLF: false until the last piece, then true with exactly the payload, and the decoder is as new but for the flag |
| `ChunkedMessage.WaitsUntilLast` | src/POST/unchunk.cpp:129-259 | Of all cuttings of a message, those whose last piece has at least three bytes, and no others, make the decoder answer false until the last piece |
| `ChunkedMessage.DecodeUnspelled` | src/POST/unchunk.cpp:179-259 | Behind headers without the spelling `Transfer-Encoding` or `chunked` the decoder hands everything through and answers true at once |
| `ChunkedMessage.UnspelledNext` | src/POST/unchunk.cpp:234-258 | The call behind that one: the decoder starts anew if it had the whole announced body, and otherwise goes on handing everything through |
| `HexSize.HexToDecLoop` | src/POST/unchunk.cpp:3-23 | The right-to-left power sum equals base-16 evaluation from the left with blanks skipped, and -1 for anything not accepted |
| `HexSize.PrintThenRead` | src/Methods/Get.cpp:434-438 | Lower-case hex printing is inverted by `hex_to_dec` |
| `HexSize.ValueJoins` | src/POST/unchunk.cpp:3-23 | Positional notation: digits in front count by powers of sixteen, blanks anywhere do not count |
| `HexSize.RejectedLine` | src/POST/unchunk.cpp:3-23 | Exactly which lines are rejected |
| `ChunkedSending.Client.SetupChunkedSending` | src/Methods/Get.cpp:402-442 | One call of the encoder: the header, a chunk, the last chunk or an error page, and the flags it leaves |
| `ChunkedSending.RoundTrip` | src/Methods/Get.cpp:402-442 | For all non-empty reads: the responses, or any allowed cutting of them, make `refactor_data` answer false until the end and then give exactly the bytes read |
| `ChunkedSending.RoundTripInOneBuffer` | src/Methods/Get.cpp:402-442 | All the encoder sends, in one buffer, makes `unchunk_data` write exactly the bytes read |
| `ChunkedSending.HeaderEnds` | src/Methods/Get.cpp:413-418 | The header the encoder prints ends with its only blank line and says chunked in the spelling the decoder looks for |
| `ChunkedSending.SendEnds` | src/Methods/Get.cpp:402-442 | The transmission is over exactly when there is nothing more to read or something failed; then the error page goes out |
| `WholeBuffer.UnchunkLoop` | src/POST/unchunk.cpp:85-112 | The loop of `unchunk_data`: `chunk_size` always equals what is left and decreases; the bytes written and the outcome are those of `Unchunk` |
| `WholeBuffer.WholeDecoder.UnchunkData` | src/POST/unchunk.cpp:25-115 | The whole function, with its static flag and its error returns |
| `WholeBuffer.DecodersAgree` | src/POST/unchunk.cpp:87-232 | On every buffer on which `unchunk_data` stays in bounds, not only well-formed ones: both decoders write the same bytes as far as both go |
| `WholeBuffer.UnchunkFramed` | src/POST/unchunk.cpp:87-112 | `unchunk_data` writes the payload of every well-formed list of chunks |
| `WholeBuffer.RefusedChunk` | src/POST/unchunk.cpp:87-112 | Exactly how a chunk that is cut short, a rejected size line and a missing one end the call |
| `WholeBuffer.FlagCarries` | src/POST/unchunk.cpp:25-84 | The flag left by a call that has read headers decides what the next call does with a buffer that has none |
| `WholeBuffer.NewRequestMeans` | src/POST/unchunk.cpp:25-60 | Only the first line says whether a buffer has headers |
| `WholeBuffer.EndlessHeaders` | src/POST/unchunk.cpp:25-84 | Headers without their end: an error, and the flag stays |
| `WholeBuffer.BothGivePayload` | src/POST/unchunk.cpp:25-259 | For a new request: one buffer through `unchunk_data` and any allowed pieces through `refactor_data` give the same bytes if and only if the buffer has the text `Transfer-Encoding: chunked`; otherwise the first writes the chunks as framed |
| `Framing.HeadCutsCoincide` | src/POST/unchunk.cpp:170-177 | The decoder cuts the headers off where the parser stands if and only if the first header line is not empty |
| `Framing.SizedPieces` | src/Parsing/parsing_request.cpp:847-876 | A body with its length, in any pieces: complete with exactly that body, as in one piece, if and only if every cut inside the head leaves at most 8 KiB in the buffer or falls in the start line; error 431 otherwise |
| `Framing.HeadTooLong` | src/Parsing/parsing_request.cpp:298-313 | A cut inside the head behind the start line, with more than 8 KiB in the buffer, draws error 431 |
| `Framing.BadCutRefused` | src/Parsing/parsing_request.cpp:882-957 | One such cut, and the request stays refused whatever comes after |
| `Framing.BlockFails` | src/Parsing/parsing_request.cpp:294-437 | A request whose header block is refused, in any pieces, whatever follows: it fails with the code of the block, or with 431 if a cut in the head does not fit |
| `Framing.SpelledPieces` | src/Parsing/parsing_request.cpp:806-846 | A chunked body in the spelling the decoder wants, in any allowed pieces whose cuts in the head fit: complete with exactly the payload, as in one piece |
| `Framing.UnspelledPieces` | src/Parsing/parsing_request.cpp:806-846 | In another spelling, in any pieces whose cuts in the head fit: the request is complete with its head, and its body is what came in the same piece behind it |
| `Framing.ChunkedPieces` | src/Parsing/parsing_request.cpp:806-846 | A chunked body in any letter case and any allowed pieces: error 431 if and only if a cut in the head does not fit, and which of the two bodies it gets otherwise |
| `Framing.ChunkedTail` | src/POST/unchunk.cpp:191-212 | Whatever stands behind the last size line: what part of it the body gets |
| `Framing.NextJoinsBody` | src/POST/unchunk.cpp:191-212 | A request pipelined behind a chunked one in the same piece becomes part of its body |
| `Framing.SpellingDecides` | src/POST/unchunk.cpp:179-180 | In one piece: the body is the payload if and only if the head has the spelling the decoder looks for, and the raw chunks otherwise |
| `Framing.TwoFramings` | src/Parsing/parsing_request.cpp:806-879 | Section 3.3.3 of RFC 7230: the same body in either framing, each in any allowed pieces, is accepted if and only if the cuts in the head fit, and gives the same `getBody()` if and only if the chunked head has that spelling, or the bytes that came with it happen to be the body |
| `PrintedRequests.PrintedFramings` | src/Parsing/parsing_request.cpp:298-315 | For requests printed from a start line, a list of fields the checks accept, and `Content-Length` or `Transfer-Encoding`: accepted if and only if the cuts in the head fit, and then always the same body |
| `PrintedRequests.PrintedSpelling` | src/Parsing/parsing_request.cpp:773-804 | With the coding field in any letter case and with any blanks: the parser takes all of them for chunks, the body is the payload exactly for that spelling |
| `PrintedStreams.LowerCaseHead` | src/POST/unchunk.cpp:179-180 | A family that fails: for any target without a capital E and any host, a request with `transfer-encoding: chunked` gets its chunks as framed for a body |
| `PrintedRequests.SizedHead` | src/Parsing/parsing_request.cpp:637-702 | A printed head with Content-Length leads the parser to the body with that length |
| `PrintedRequests.ChunkedHeadIs` | src/Parsing/parsing_request.cpp:773-804 | A printed head whose coding field says chunked, in any letter case, leads the parser to the chunked body |
| `BodyLength.ExpectedLength` | src/Parsing/parsing_request.cpp:419-435 | The length an accepted header map makes the parser expect is the checked one if and only if no directive of the content type has its name, or what is read from that directive is the same number |
| `BodyLength.AcceptedLength` | src/Parsing/parsing_request.cpp:294-437 | The same for a header block |
| `BodyLength.DirectivesOver` | src/Parsing/parsing_request.cpp:531-546 | The directives of the content type are laid over the header map, the last one of a name winning |
| `BodyLength.LengthReplaced` | src/Parsing/parsing_request.cpp:490-606 | A family that fails: a printed request with `Content-Length: n` and `Content-Type: text/plain;content-length=k` makes the parser expect k, for any n and k |
| `BodyLength.LengthCuts` | src/Parsing/parsing_request.cpp:847-876 | The expected length cuts the body and the rest is left for the next request, unless a lower-case letter stands right behind it, which draws error 400 |
| `PrintedRequests.ReadSizeMeans` | src/Parsing/parsing_request.cpp:427-432 | What stream extraction reads into the unsigned length from any text that starts with a number, signed or too large |
| `BodyLength.HostLeft` | src/MethodHandler.cpp:7-15 | The host by which the server is picked is the checked one if and only if no directive of the content type has its name, or that directive says the same |
| `BodyLength.MapLeft` | src/Parsing/parsing_request.cpp:408-437 | The header map an accepted request ends up with: what was read, the two parts of the host, the directives laid over both, and the media type |
| `BodyLength.HostReplaced` | src/MethodHandler.cpp:7-15 | A family that fails: any host is replaced by `Content-Type: text/plain;host=other` |
| `BodyLength.ReplacedLengthCuts` | src/Parsing/parsing_request.cpp:847-876 | So a body of the announced length is cut at k and its rest is taken for the next request |
| `Pipelining.Pipelined` | src/Parsing/parsing_request.cpp:959-986 | Section 6.3.2 of RFC 7230: whole requests back to back are parsed in order, each as if alone, and nothing is left |
| `Pipelining.ResetIsFresh` | src/Parsing/parsing_request.cpp:959-986 | After `reset` the parser is a fresh one that has been given the unread bytes |
| `Pipelining.CompleteMore` | src/Parsing/parsing_request.cpp:905-950 | A complete request stays the same when bytes follow that do not start in lower case |
| `Pipelining.WholeStartsUpper` | src/Parsing/parsing_request.cpp:173-207 | No request starts with a lower-case letter, so the next request never spoils the one before |
| `Pipelining.Run` | src/Parsing/parsing_request.cpp:882-986 | After any sequence of feeds and resets the invariant holds |
| `Pipelining.BytesConserved` | src/Parsing/parsing_request.cpp:882-986 | All bytes fed are the consumed prefixes followed by the buffer |
| `Stream.AnyStream` | src/Parsing/parsing_request.cpp:882-986 | Any feeds and resets of the event loop on a stream of requests, cut anywhere: the parser stands behind the last request consumed, with the rest in its buffer |
| `Stream.StreamParsed` | src/Parsing/parsing_request.cpp:882-986 | No request that was not sent, none out of order; an error if and only if a piece did not fit into the buffer; otherwise at any moment as many as `Count` says, and all of them if and only if from the last byte of each request on there was a call of `feed_data` for it and one for each request behind it |
| `Stream.ParsedIsCounted` | src/Parsing/parsing_request.cpp:905-950 | One request more is parsed at a call exactly when the bytes fed so far reach the end of the next one, never two |
| `Stream.CountReaches` | src/Parsing/parsing_request.cpp:882-986 | The count reaches n if and only if there were enough calls behind the end of each of the first n requests |
| `Stream.OverflowIsLast` | src/Parsing/parsing_request.cpp:882-894 | Only the last call can have overflowed |
| `Stream.CutAnywhere` | src/Parsing/parsing_request.cpp:298-313 | A request may be cut at every byte if and only if its head is at most one byte longer than 8 KiB; otherwise some cut draws error 431 |
| `Stream.WholeShape` | src/Parsing/parsing_request.cpp:209-437 | What a request that the parser takes whole consists of: line, block, and exactly the announced body |
| `Stream.PrefixWaits` | src/Parsing/parsing_request.cpp:882-957 | Every proper prefix of such a request makes a fresh parser ask for more |
| `Stream.SecondLiesUnparsed` | src/server.cpp:462-485 | Two requests in one piece: after the first is answered the second lies whole and unparsed in the buffer until more bytes come |
| `PrintedStreams.PrintedStream` | src/Parsing/parsing_request.cpp:882-986 | Printed requests with and without bodies, in any pieces: the requests parsed are those that were meant, as many as `Count` says, all of them exactly under that condition on the pieces |
| `PrintedStreams.PrintedFits` | src/Parsing/parsing_request.cpp:209-437 | A printed request is taken for exactly one request, with its line, its checked headers and its body, wherever it is cut |
| `PrintedStreams.LineThenRead` | src/Parsing/parsing_request.cpp:209-234 | A start line printed from an implemented method and an accepted target is read back |
| `PrintedStreams.LineJudged` | src/Parsing/parsing_request.cpp:150-234 | Any line, as the words between its spaces: exactly which are accepted, what they become, and the code of the others; words behind the third do not matter |
| `PrintedStreams.HostOnly` | src/Parsing/parsing_request.cpp:704-771 | A host name alone makes a header list the checks accept |
| `PrintedStreams.SimpleRequest` | src/Parsing/parsing_request.cpp:209-437 | Any accepted target on any plain host name makes a good request, GET or POST, if and only if it is not too large |
| `PrintedStreams.RootRequest` | src/Parsing/parsing_request.cpp:209-437 | `GET /` on any such host that is not too long is one |
| `EventLoop.RunKeeps` | src/server.cpp:205-568 | The invariant holds in every state of every run, and no step uses a deleted parser |
| `EventLoop.MapsAgree` | src/server.cpp:230-240 | `clients` and `client_data_map` have the open descriptors as keys, the parsers are among them, ready means EPOLLOUT, and a client without parser is being closed |
| `EventLoop.ParserAlwaysFound` | src/server.cpp:310-321 | The branch for a missing parser is never taken |
| `EventLoop.ExactlyOnce` | src/server.cpp:392-567 | Bytes on the wire and pending ones are the responses promised; the handler runs once per parsed request, in order; with EPOLLIN armed all is sent |
| `EventLoop.ClosedInFull` | src/server.cpp:437-485 | Every closed connection was served once per parsed request, and unless a send failed all of it was sent |
| `EventLoop.StaysOpen` | src/server.cpp:270-567 | Exactly when a step closes a connection: the peer has; a `send` fails and no GET is answered; or the last byte is sent and the connection was refused or the last request says `connection: close` |
| `EventLoop.ClosedAsTold` | src/server.cpp:437-456 | Over every run: a connection closed after an answer was refused, or the header block of the last request it was served says `connection: close`; no earlier request said so |
| `EventLoop.KeptAsTold` | src/server.cpp:457-485 | While EPOLLIN is armed, no request that was served said so, and the connection has not been refused |
| `EventLoop.PrintedKept` | src/server.cpp:457-485 | The same for printed requests, by their own fields |
| `EventLoop.PrintedClosed` | src/server.cpp:437-456 | And for connections that were closed |
| `Closing.FeedTells` | src/Parsing/parsing_request.cpp:608-635 | Once the headers are read, the flag `connection_status` is what the block the parser holds says |
| `Closing.StreamBlocks` | src/Parsing/parsing_request.cpp:882-986 | However a stream is cut, the header block of each parsed request is the one that was sent |
| `EventLoop.HandlerFindsHost` | src/MethodHandler.cpp:3-15 | When `feed_data` has answered PARSE_OK, the start line and the host that `handleMethod` looks up are there |
| `EventLoop.HandlerHasRequest` | src/server.cpp:392-397 | When the response is computed, the parser, its start line and the host are still there |
| `EventLoop.StreamServed` | src/server.cpp:205-568 | End to end, for every open connection: on a stream of requests the handler runs for the first of them in order, as many as the pieces `recv` returned count, and for all exactly under the condition on the pieces; it is refused if and only if a piece did not fit |
| `EventLoop.StreamServedClosed` | src/server.cpp:205-568 | The same for every connection that has been closed |
| `EventLoop.PrintedServed` | src/server.cpp:205-568 | The same for printed requests: the handler is given what the client meant |
| `EventLoop.PrintedServedClosed` | src/server.cpp:205-568 | And for closed connections |
| `EventLoop.Servers.AcceptClient` | src/server.cpp:205-241 | The three maps get their entries and EPOLLIN is armed |
| `EventLoop.Servers.ReadClient` | src/server.cpp:270-382 | The EPOLLIN branch: end of stream, missing parser, and the three answers of `feed_data` |
| `EventLoop.Servers.FeedClient` | src/server.cpp:323 | The call of `feed_data` on the parser of the descriptor |
| `EventLoop.Servers.MarkReady` | src/server.cpp:325-360 | The branch of PARSE_OK: the data of the client, ready, EPOLLOUT |
| `EventLoop.Servers.RefuseClient` | src/server.cpp:366-382 | The branch of an error: the error page, the closing mark, EPOLLOUT, and the parser deleted |
| `EventLoop.Servers.WriteClient` | src/server.cpp:385-567 | The EPOLLOUT branch for both kinds of method, whatever `send` answers |
| `EventLoop.Servers.RunHandler` | src/server.cpp:394-397 | The handler computes the response |
| `EventLoop.Servers.EraseSent` | src/server.cpp:425-436 | The sent bytes leave the pending response |
| `EventLoop.Servers.FinishResponse` | src/server.cpp:437-485 | Close, or reset and arm EPOLLIN |
| `EventLoop.Servers.CloseClient` | src/server.cpp:447-456 | The clean-up takes the descriptor out of all maps |
| `Uri.UrlDecodeLoop` | src/Parsing/parsing_request.cpp:11-26 | The loop decodes escapes and leaves the rest |
| `Uri.EncodeThenDecode` | src/Parsing/parsing_request.cpp:11-26 | Section 2.1 of RFC 3986: percent-encoding any bytes, with either letter case for every single digit, and decoding gives them back |
| `Uri.OddEscape` | src/Parsing/parsing_request.cpp:3-24 | An escape without two digits: one digit counts alone, a minus sign negates one, anything else is a zero byte, and three bytes are used up |
| `Uri.EscapeAtEnd` | src/Parsing/parsing_request.cpp:3-24 | An escape at the end of the string |
| `Uri.NormalizePath` | src/Parsing/parsing_request.cpp:28-57 | The loop over segments computes `Normalize` |
| `Uri.NextToken` | src/Parsing/parsing_request.cpp:30-45 | One segment is taken off the path; the rest resolves as before |
| `Uri.Concatenate` | src/Parsing/parsing_request.cpp:46-56 | The segments are joined behind a slash |
| `Uri.NormalizeNormalizes` | src/Parsing/parsing_request.cpp:28-57 | The result is in normal form, paths in normal form and only those are fixed, and normalising is idempotent |
| `Uri.DotSegments` | src/Parsing/parsing_request.cpp:28-57 | Section 5.2.4 of RFC 3986: `.` and empty segments drop out, `..` drops with the segment in front of it, at the root alone |
| `Uri.NoTrailingSlash` | src/Parsing/parsing_request.cpp:46-56 | A normal form other than the root has no trailing slash |
| `Uri.NormalizeHasNoDots` | src/Parsing/parsing_request.cpp:127-147 | Normalising never creates two dots in a row |
| `Uri.AcceptedUri` | src/Parsing/parsing_request.cpp:59-148 | Exactly which targets are accepted; the second test for two dots never fires; the result is the normal form of the decoded path and the untouched suffix |
| `Uri.RejectedUri` | src/Parsing/parsing_request.cpp:59-148 | 414 exactly for a target that starts with a slash and is longer than 8000 bytes, 400 for every other refusal |
| `Uri.CheckUriLoop` | src/Parsing/parsing_request.cpp:59-148 | The checks in their order with their codes |
| `Uri.PathThenSuffix` | src/Parsing/parsing_request.cpp:111-126 | The target is its path part and its suffix, cut at the first `?` or `#` |
| `PathSecurity.IsPathSecure` | src/utils/path_security.cpp:3-36 | The skip-by-two scan answers exactly whether the path is secure |
| `PathSecurity.DotSegmentIsPiece` | src/utils/path_security.cpp:10-34 | What the scan looks for is exactly a `..` segment of the path |
| `PathSecurity.SecureMeans` | src/utils/path_security.cpp:3-36 | Exactly what the guard accepts: no leading slash, no two dots at the start, no `..` segment, no `//`, and none of the four encoded forms |
| `PathSecurity.NormalizedIsTidy` | src/Parsing/parsing_request.cpp:111-147 | The normal form of a decoded path without two dots has neither two dots nor two slashes in a row, and no `%` the path has not |
| `PathSecurity.TidyIsSecure` | src/utils/path_security.cpp:3-36 | Of such a text without leading slash the guard rejects exactly those with `%2e%2e` or `%2E%2E` |
| `Locations.Get.MatchLocation` | src/Methods/Get.cpp:70-128 | The loop ends, keeps `path` and `removedPath` as the cut of the original, gives the answer for the longest ancestor of any path, and sets the name exactly when a location was found, forbidden or not |
| `Locations.CheckIfAllowed` | src/Methods/DELETE.cpp:149-172 | The loop ends and answers for the longest ancestor |
| `Locations.MapUriToPath` | src/Methods/DELETE.cpp:174-224 | The loop ends and maps any path by the longest ancestor, or reports the error |
| `Locations.OutOfRangeExactly` | src/Methods/Get.cpp:107-113 | The exception is thrown exactly for a path without leading slash, unless a location is named like it or like it cut at a slash |
| `Locations.GetLocation` | src/POST/match_location.cpp:3-28 | The single loop finds the longest prefix, the first among equals |
| `Locations.ClimbFindsLongest` | src/Methods/Get.cpp:91-126 | Cutting segments finds the longest configured ancestor, the first among duplicates, and nothing only when there is none |
| `Locations.AnswerMeans` | src/Methods/Get.cpp:91-128 | For a path with a leading slash: nothing found exactly without a configured ancestor; otherwise the longest one decides the method, the guard on what is below it, and the file name, its root followed by that |
| `Locations.CutOrRoot` | src/Methods/Get.cpp:74-128 | `path ++ removedPath` is the original, or `path` is the root and `removedPath` the original |
| `Locations.SearchesAgree` | src/POST/match_location.cpp:3-28 | For any target, query or not: the prefix search of the target is never shorter than the segment search of its path, and chooses the same location if and only if its choice is a segment ancestor of the path |
| `Locations.SearchesAgreeOnAncestors` | src/POST/match_location.cpp:3-28 | They choose the same location when every configured prefix of the target is an ancestor of its path |
| `Locations.DeleteAgrees` | src/Methods/DELETE.cpp:86-90 | DELETE asks `checkIfAllowed` with the query and `mapUriToPath` without: with a query both stand at the same location if and only if no location is named like the path, or like it with a part of the query |
| `Locations.QueryChangesPermission` | src/Methods/DELETE.cpp:149-172 | The failing family: a query makes the parent of the location decide whether DELETE is allowed |
| `Locations.DeleteWithQuery` | src/Methods/DELETE.cpp:86-90 | An input: `DELETE /a?x` is allowed by the root and maps into a location that does not allow it |
| `Locations.AcceptedIsForbidden` | src/utils/path_security.cpp:3-36 | Exactly when the guard rejects the remainder of an accepted target: a location is found and allows the method, and behind it two dots are still percent-encoded |
| `Locations.AcceptedIsNotForbidden` | src/utils/path_security.cpp:3-36 | So never when the decoded path has no `%` |
| `Locations.EncodedTwice` | src/utils/path_security.cpp:3-36 | A family that is rejected: any path in normal form with such dots, its percent signs escaped once more, and any other bytes behind its first slash, in any letter case |
| `Locations.EncodedDotsAreForbidden` | src/utils/path_security.cpp:3-36 | The shortest of them: `/%2e%2e`, escaped once more |
| `Locations.FindLocation` | src/Methods/Get.cpp:92-98 | The inner loop finds the first location with that path |
| `Redirects.CheckRedirectionLoops` | src/Config.cpp:327-395 | The check ends on every configuration and throws if and only if some internal return starts a chain that repeats; it names such a chain |
| `Redirects.WalkChain` | src/Config.cpp:343-391 | The `while (true)` loop ends, the unvisited return targets being its measure, and reports a loop exactly when the chain repeats |
| `Redirects.FindNext` | src/Config.cpp:357-386 | The search through servers and locations, with the flag and the target it leaves |
| `Redirects.NextMeans` | src/Config.cpp:355-390 | Where a chain goes on, by the first server that neither lacks the path nor sends it outside; when that has no return, to the last target outside that was passed |
| `Redirects.AcceptedIsAcyclic` | src/Config.cpp:327-395 | No configuration the loader lets through and the check accepts has a cycle of first returns, however many servers it has |
| `Redirects.SearchStartsAtSlash` | src/singleserver.cpp:542-556 | Only paths that start with a slash are ever found, since the loader refuses any other location path |
| `Calendar.EpochToUTC` | src/utils/ft_time.cpp:11-43 | The loops end and invert the closed-form Gregorian count, for negative epochs too; date and time are valid if and only if the epoch is not negative |
| `Calendar.DayCountInjective` | src/utils/ft_time.cpp:11-43 | Two valid dates with the same count are the same |
| `Calendar.EpochInjective` | src/utils/ft_time.cpp:11-43 | So the inverse is unique |
| `Fixdate.FtTimeFormat` | src/utils/ft_time.cpp:71-105 | The text is 29 characters long if and only if the year is at most 9999, and reads back as the time printed |
| `Fixdate.FormatThenRead` | src/utils/ft_time.cpp:84-103 | Section 7.1.1.1 of RFC 7231: printing and reading is the identity, weekday included |
| `Fixdate.RfcExample` | src/utils/ft_time.cpp:84-103 | The example of section 7.1.1.1 of RFC 7231 |
| `Fixdate.Periodic` | src/utils/ft_time.cpp:11-43 | 146097 days later only the year differs, by 400: weekday, month, day and time are printed the same |
| `Fixdate.LastFourDigitYear` | src/utils/ft_time.cpp:84-103 | The last second the format can print |
| `Config.FirstMatch` | src/Config.cpp:354-362 | The first location with a path |

## Left out

- CGI: its processes, pipes and time limits, and the branches of the event loop that serve it.
- The file system and what is read from it: responses and error pages are parameters, opaque and not empty.
- Several connections that share the statics of `refactor_data`: each stream has a decoder of its own.
- ChunkDecoder.DecodeSplit: bounds the bytes held by the width of `size_t`; the parser never holds more than 10 MiB.
- HexSize.HexToDecLoop: works on unbounded integers, so a size of 2^31 and more, where the conversion from `double` overflows, is not what the machine computes.
- SplitIndependence.SplitFeed: takes -1 for a rejected size line as the code does, and sizes of 2^31 and more as exact.
- ChunkedMessage.DecodePieces: well-formed messages in pieces whose last has at least three bytes; extensions, trailers and upper-case sizes are rejected size lines for this decoder.
- WholeBuffer.DecodersAgree: stands for the bytes written to one file; the file names, the appending across calls and the read behind the end of the string that the wrapped size causes are not modelled, the last being the outcome `OutOfBounds`.
- EventLoop.RunKeeps: covers the kernel's answers but a negative `recv`, failures of `accept` and `epoll_ctl`, and hang-ups without EPOLLIN.
- EventLoop.Servers.ReadClient: holds the parsers as values in the map; the object behind the pointer is `Parser.ParsingRequest`, proved against the same function.
- Stream.StreamParsed: covers requests without chunked bodies, since the chunked branch takes all of the buffer for the body; `Framing.ChunkedPieces` covers those one at a time.
- PrintedStreams.PrintedStream: covers requests without body, and POST with Content-Length.
- Checks.CheckAllInTurn: has the checks as methods and functions on the fields of the parser, which `ReadHeaders` stores back, not as methods of its object.
- Fixdate.FtTimeFormat: requires a time that is not negative, as the clock returns it, and years are unbounded integers.
- ChunkedSending.RoundTrip: takes the reads as given; a failed read sends the error page instead and ends the transfer.
- Redirects.AcceptedIsAcyclic: takes from the loader only that location paths start with a slash.
- Redirects.CheckRedirectionLoops: starts from the parsed configuration, the servers in the order of the map's keys.
- Locations.GetLocation: answers the index of the location, or none where the code returns a default one.
- Uri.UrlDecodeLoop: takes an escape stream extraction cannot read as 0, and bytes as characters below 256.
- Headers.ReadBlockLoop: lower-cases ASCII letters only, as in the C locale.
- The entries of the two tables, the accepted content types and the MIME types, are taken over as they are.
- Logging, error messages, cookies, the random identifier, signals and memory exhaustion.
- The reading of the configuration text, MIME types beyond the table of `getMimeType`, range requests and uploads.

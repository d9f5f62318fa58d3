# Dafny model of goalpaca

goalpaca is a Go library for ASCOM Alpaca, the HTTP protocol between astronomy clients and devices. This project
models the parts of it that do index arithmetic, keep state in place or follow a step-by-step protocol, and proves
what they promise for every input, every run and every interleaving. `dafny verify dfyconfig.toml` checks it all.

**Image transport.** A camera frame is stored row by row and sent column by column. `Grid` defines the transpose once,
by the law that sample (x, y) of the wire is pixel (y, x) of the sensor, and shows that this law has exactly one
solution. `Transpose` is the tiled, banded, parallel transpose over an array: each goroutine is a trace of writes
(`Writes`), the traces share no index, and any schedule of them leaves the same buffer. `ImageBytes` is the codec
around it, with round trips; `FaultProxy` transposes a frame that is already encoded; `Sinks` are the two streaming
readers, which take the wire bytes in any chunks; `JsonArrays`, `JsonSpelling`, `ImageJson`, `ImageJsonDecode` and
`ImageJsonRoundTrip` print and read the JSON fallback; `ImageStream` is the negotiation, the sink protocol and the latch
of a streamed download, `JsonErrors` says which device errors the latch takes for refusals, and `ImageDownload` is a
download into those readers from end to end.

**Lifecycle and settings.** `Lifecycle` runs any number of Reloads, closes and opens of one device as threads that
interleave at every critical section and every call out, and says for which of them one handle at a time survives;
`LostHandles` says for which of them no handle is left open that is recorded nowhere, and for which an Unregister or a
shutdown leaves none open at all; `ReloadOutcome` says which device serves in the end. `ConfigAdapter` is the
transactional settings adapter: what it remembers always stands for the configuration the device last accepted, also
after a restart. `SettingTag` and `SettingSpelling` are the tag language of the settings; `StripComments` and
`StripForms` are the comment stripper of the device files.

**Discovery.** `RateGate` is the token bucket, shown to be the most generous limiter its bound allows. `Registry` is the
heartbeat table, whose pruning nobody can see.

**Simulators.** `Rotator` and `TelescopeDrift` compute positions on read; reading or repeating an order changes nothing.

**Telescope dispatch.** `TelescopeGates` and `TelescopeDispatch` say which calls can ever reach a driver, whatever the
driver and the requests, and what the target coordinates read back; `TelescopeClient` sends the requests of the typed
client through them.

Where the code keeps a promise only in part, the lemma says exactly when: a body cut short that ends cleanly is reported
as a success (`ImageDownload.Download`, `ImageDownload.TruncatedSucceeds`), and so is one somewhat too long
(`ImageDownload.OverlongSucceeds`), a JSON device error that ends beyond one MiB turns streaming off
(`JsonErrors.LatchesByObjectEnd`), two handles open at once (`Lifecycle.SingleOpenExactly`), a handle open that is
recorded nowhere (`LostHandles.NoHandleLostExactly`), a handle recorded after the last close and so never closed
(`LostHandles.NothingStaysOpenExactly`), a device counted as answered for after it fell silent
(`Registry.Registrations.ServeProbe`), NaN passing every range check (`TelescopeGates.InRangeUnlessNaN`), an axis swap
applied twice (`FaultProxy.SwapTwice`), samples too wide for their JSON type (`ImageJsonRoundTrip.JsonRoundTrip`), a
stream and a buffered decoder that differ (`ImageStream.StreamMatchesDecode`), drift folded off the sphere
(`TelescopeDrift.FoldVisible`). Where the comments in the source and the code disagree, the code is followed:
`shortestDelta` (sim/rotator.go:175-185) returns -180, which its comment excludes, exactly as `Rotator.MinusHalfTurn`
says; `telescopePut` (server/telescope_http.go:140-143) checks the axis of a MoveAxis before the Can-flag
(`TelescopeGates.GateOrder`).

Formatting of floats enters as functions with the laws the lemmas ask of them (`ConfigAdapter.Lawful`,
`SettingTag.ReadsBack`, `ImageJsonRoundTrip.Exact`, `ImageJsonRoundTrip.KeepsSmall`), on the numbers that float64 has;
`ConfigAdapter.SomeFloats` and `ImageJsonRoundTrip.SomeDoubleBits` give functions that meet them, and the identity meets
the last. The JSON parser of device errors enters likewise (`JsonErrors.ReadsObjects`, `JsonErrors.SomeParser`).

Modules: `Bytes` (words), `Grid`, `Writes`, `Decimal` (integer text), `TextForms` and `TextJoin` (Go's trimming, booleans
and joining) are shared; the others follow one source file each. A method is tied by its `ensures` to a function, and
the lemmas are about that function.

## Model

| member | source | states |
|---|---|---|
| `Grid.TransposedUnique` | alpaca/imagebytes.go:90-154 | The transpose is the one sequence that satisfies dst[c*rows+r] = src[r*cols+c] for every element and byte. |
| `Grid.TransposedTwice` | alpaca/imagebytes.go:207-220 | Transposing with the dimensions exchanged restores every grid. |
| `Transpose.TransposeTile1` | alpaca/imagebytes.go:128-134 | The one-byte tile loop writes every byte of its tile once, with its transposed value, and nothing outside it. |
| `Transpose.TransposeTile2` | alpaca/imagebytes.go:135-144 | The same for the two-byte loop. |
| `Transpose.TransposeTileN` | alpaca/imagebytes.go:145-151 | The same for elements of any size. |
| `Transpose.TransposeBand` | alpaca/imagebytes.go:122-154 | The 64-wide tiles of a band write exactly the bytes of its rows, each once, with the transposed values. |
| `Transpose.TransposeBands` | alpaca/imagebytes.go:104-118 | Bands of any height cover the destination, share no byte, and together leave the transpose. |
| `Transpose.TransposeInto` | alpaca/imagebytes.go:94-119 | For all rows, columns, element sizes and worker counts dst is the transpose, bytes before the region are untouched, and every byte is written by one goroutine, once. |
| `Writes.RaceFreeSchedule` | alpaca/imagebytes.go:107-118 | Every schedule of goroutines that share no index leaves the same buffer as running them one after the other. |
| `ImageBytes.PutImageBytesHeader` | alpaca/imagebytes.go:168-182 | The pokes leave exactly the 44 header bytes of the eleven fields and do not touch the payload. |
| `ImageBytes.EncodeImageBytesInto` | alpaca/imagebytes.go:41-55 | Filling the buffer in place yields the header and the pixels in wire order, for transposed and copied frames. |
| `ImageBytes.EncodedWords` | alpaca/imagebytes.go:168-182 | The eleven words of every encoded message, at their offsets: version 1, no error, the client's and then the server's transaction number, 44, both types, rank and dimensions in 32 bits. |
| `ImageBytes.WireOrder` | alpaca/imagebytes.go:34-55 | In the encoded message the sample of column x and row y is sample x*height+y, byte for byte. |
| `ImageBytes.EncodeImageBytesError` | alpaca/imagebytes.go:160-166 | The error envelope is the header with the number and rank 0, then the message. |
| `ImageBytes.ErrorWords` | alpaca/imagebytes.go:160-182 | The eleven words of every error envelope, transaction numbers included, and the message behind them. |
| `ImageBytes.DecodeImageBytes` | alpaca/imagebytes.go:188-225 | The method computes the decoding function, short messages, device errors and a data start past the end included. |
| `ImageBytes.TransposeElems` | alpaca/imagebytes.go:85-89 | A fresh buffer with the transpose. |
| `ImageBytes.RoundTrip` | alpaca/imagebytes.go:41-55 | Decode after encode returns the frame, its transmission type spelt out, if and only if rank and dimensions fit unsigned 32-bit words: transposed, copied and length-mismatched frames alike. |
| `ImageBytes.ErrorRoundTrip` | alpaca/imagebytes.go:160-166 | A decoded error envelope gives its number and message back; a number that is zero in 32 bits reads as an empty frame. |
| `ImageBytes.HeaderAnnouncesPixels` | alpaca/imagebytes.go:252-281 | The header of a well-formed frame, parsed alone, has its fields and announces exactly the bytes that follow. |
| `FaultProxy.TransposeFrame` | cmd/fault_proxy/main.go:554-596 | The method computes the swapped response: guards, copied prefix, exchanged dimension words, block, zeros after it. |
| `FaultProxy.TransposeBlock` | cmd/fault_proxy/main.go:582-591 | The element copy loops leave the transpose of the block in place and nothing else changed. |
| `FaultProxy.SwapTwice` | cmd/fault_proxy/main.go:554-596 | Applied twice the fault restores a response if and only if nothing but zeros follows its pixel block. |
| `FaultProxy.LeftAlone` | cmd/fault_proxy/main.go:560-581 | Anything but a rank-2 response of known samples whose block lies behind the header and in the body is left as it is. |
| `FaultProxy.SwapCommutesWithEncode` | cmd/fault_proxy/main.go:554-596 | Swapping an encoded rank-2 frame is encoding the flipped frame if both dimensions are below 2^31, and only then unless the frame is square. |
| `Sinks.U16Sink.Header` | client/imagestream_test.go:32-40 | Accepts exactly two-byte samples and then has an empty array of the announced size. |
| `Sinks.U16Sink.Put` | client/imagestream_test.go:81-87 | One whole sample goes to its pixel and the position moves on. |
| `Sinks.U16Sink.Write` | client/imagestream_test.go:42-79 | After any Write within these bounds the array holds every whole sample received, in its place, a later one over an earlier, zero elsewhere, and the odd byte is carried. |
| `Sinks.U16Sink.ParWrite` | client/imagestream_test.go:224-255 | The same for the parallel sink, for every worker count, while no two samples share a pixel. |
| `Sinks.U16Sink.ConvertParallel` | client/imagestream_test.go:258-286 | The goroutines share no pixel, so every schedule leaves the array the scalar sink would have. |
| `Sinks.U16Sink.ConvertRange` | client/imagestream_test.go:289-309 | One goroutine writes exactly the pixels of its samples, placed from the position and its index alone. |
| `Sinks.InBoundsExactly` | client/imagestream_test.go:42-87 | A sink finds a place in its array for each of n samples if and only if there is none, or the array has columns and they exceed it by less than a column. |
| `Sinks.OwnPixelsExactly` | client/imagestream_test.go:42-87 | No two of these samples share a pixel if and only if they are no more than the pixels. |
| `Sinks.ImageOfWire` | client/imagestream_test.go:94-102 | Samples placed one by one make the array that transposing the whole body back and widening makes. |
| `Sinks.StreamFrame` | client/imagestream_test.go:142-173 | For every 16-bit message, every chunking and either sink, streaming ends with the samples of the decoded message. |
| `Sinks.EncodedMessage` | client/imagestream_test.go:338-356 | Every encoded rank-2 frame of 16-bit samples is such a message, and what it decodes to is the frame. |
| `JsonArrays.TextRoundTrip` | server/imagearray.go:96-122 | Reading the text of a nested array of integers gives the array back, with a reader that takes any JSON number and null. |
| `JsonSpelling.ReadExactly` | client/imagearray.go:49-83 | A text is read as an array if and only if it is one of its spellings by RFC 8259: numbers with fractions and exponents, nulls, and white space wherever it may be. |
| `JsonSpelling.PowersOfTen` | client/imagearray.go:49-56 | What fraction and exponent of a number mean. |
| `ImageJson.WriteImageArrayJSON` | server/imagearray.go:70-126 | The streaming loops print Value[x][y] (or [x][y][p]) for printable frames and refuse all others. |
| `ImageJson.AnsweredExactly` | server/imagearray.go:23-95 | Which frames are answered, by the numbers of the standard and their sizes, and the Type and Rank each answer announces. |
| `ImageJsonDecode.SniffRank` | client/imagearray.go:116-131 | The loop computes the nesting depth, capped at 3. |
| `ImageJsonDecode.SniffMeans` | client/imagearray.go:113-131 | Up to three opening brackets are counted, white space between them aside, and nothing behind anything else. |
| `ImageJsonDecode.RowMeans` | client/imagearray.go:49-56 | Rows are null or arrays of nulls, read as zeros, and of numbers in the range of float64. |
| `ImageJsonDecode.RangeMeans` | client/imagearray.go:49-56 | That range: below 2^1024 - 2^970 on either side. |
| `ImageJsonDecode.DecodeImageArrayJSON` | client/imagearray.go:22-111 | The filling loops compute the frame, numbers rounded to float64 and truncated to the element type and nulls as zeros, or the first error: not nested numbers, a number beyond the range of float64, empty, ragged column or cell, bad rank. |
| `ImageJsonDecode.Decode2Exactly` | client/imagearray.go:52-79 | A rank-2 array is decoded if and only if it has columns, none empty and all equally long; otherwise the error names what is wrong first. |
| `ImageJsonDecode.Decode2At` | client/imagearray.go:38-72 | The number of column x and row y is stored at element y*width+x. |
| `ImageJsonDecode.Decode3Exactly` | client/imagearray.go:81-109 | The same for rank 3, whose cells are equally long too. |
| `ImageJsonDecode.DecodedType` | client/imagearray.go:27-36 | Type 1 is decoded as Int16, 3 as Double and anything else as Int32, with the rank asked for; other ranks are refused. |
| `ImageJsonDecode.TruncMeans` | client/imagearray.go:40-48 | Numbers become integers towards zero. |
| `ImageJsonRoundTrip.ValueTextIsTree` | server/imagearray.go:97-122 | What is printed is the text of the nested array of the frame's samples. |
| `ImageJsonRoundTrip.SniffRankOf` | client/imagearray.go:113-131 | The rank of a printed frame is recovered from its text. |
| `ImageJsonRoundTrip.JsonRoundTrip` | server/imagearray.go:70-126 | Printed and decoded, with or without the rank, a frame of integers of at most 32 bits, UInt32 shown as Double included, has the same rank, width, height and planes (none for rank 2), and the same sample at every index if and only if the presentation type has room for its samples. |
| `ImageJsonRoundTrip.SamplesArrive` | server/imagearray.go:23-33 | The Type announced has room: every sample arrives for every answered frame of integers of at most 32 bits transmitted as what it is, and for every Byte, UInt16 or Int32 frame that does not transmit UInt32. |
| `ImageJsonRoundTrip.TransportsAgree` | client/imagearray.go:14-21 | The JSON fallback and ImageBytes give a client the same samples under exactly that condition. |
| `ImageStream.Device.GetImageStream` | client/imagestream.go:47-119 | The method computes the outcome function: error, sink calls, whether a request was sent, and the latch, with at most one MiB of a JSON answer and 64 KiB of an error message read. |
| `ImageStream.CopyBody` | client/imagestream.go:115-118 | The copy loop makes the Writes of the copying function and stops at the first failure. |
| `ImageStream.SinkProtocol` | client/imagestream.go:20-31 | For every server and sink: no calls, or Header, Writes and exactly one Close at the end. |
| `ImageStream.TransferErrorWins` | client/imagestream.go:97-105 | Close's error is returned only after the whole body was taken and ended cleanly; a transfer error hides it; success means that every byte that arrived from the data start on was delivered, however many were announced. |
| `ImageStream.LatchedByRefusal` | client/imagestream.go:70-77 | The latch is set if and only if some earlier answer was a well-formed one without image bytes whose first MiB, all that is read of it, parses to no error number. |
| `ImageStream.EnvelopeReported` | client/imagestream.go:84-87 | A streamed error envelope is reported with its number and the first 64 KiB of its message. |
| `ImageStream.NoBody` | client/imagestream.go:52-83 | Requests that fail, other statuses and short headers are reported as such, ask nothing of the sink and do not latch. |
| `ImageStream.LongDeviceErrorLatches` | client/imagestream.go:128-139 | Any device error with no closing brace before the end of a message of a MiB or more sets the latch and is reported as an unstreamable answer, for every parser that asks an object for its brace. |
| `JsonErrors.LatchesByObjectEnd` | client/imagestream.go:128-139 | A JSON device error sets the latch, and is not reported as itself, if and only if its object ends beyond the first MiB. |
| `JsonErrors.EndOfPrefix` | client/imagestream.go:128-139 | A text cut before its object ends has no object in it, and one cut behind it has the same. |
| `JsonErrors.EndOfObject` | client/imagestream.go:128-139 | The end is found for every object as JSON writes it, with strings that hold quotes and braces and objects inside, whatever follows. |
| `ImageStream.NoRequestAfterRefusal` | client/imagestream.go:48-51 | After one refused negotiation no call sends a request or touches its sink. |
| `ImageStream.StreamMatchesDecode` | client/imagestream.go:91-95 | A successful stream delivers the buffered decoder's pixel bytes if and only if 44 <= DataStart <= length; a start past the end is a padding error. |
| `ImageDownload.CarryOut` | client/imagestream.go:97-118 | The sink calls of any transfer, made on either sink, leave it with the bytes delivered; a sink that refuses the header is given none. |
| `ImageDownload.Download` | client/imagestream.go:91-118 | For every response with room, arrival and sink, a download succeeds if and only if streaming was not refused before, the response has an error-free header of two-byte samples and its padding, and the body ends cleanly at whatever length; the array then holds the bytes that came and, for rank 2 behind a whole header, equals the decoded picture if and only if they are as many as announced, or one odd byte more of a picture that is its own transpose. |
| `ImageDownload.DecodedWhenComplete` | alpaca/imagebytes.go:207-220 | The bytes of a rank-2 response, placed one by one, make the decoded picture under exactly that condition: a message of another length is not transposed. |
| `ImageDownload.TruncatedSucceeds` | client/imagestream.go:91-118 | Every encoded frame of two-byte samples cut short and ended cleanly streams without an error, with fewer bytes than its header announces. |
| `ImageDownload.OverlongSucceeds` | client/imagestream.go:91-118 | A body with more samples than pixels, but less than a column more, streams without an error, and the first of these takes another sample's place. |
| `Lifecycle.ClosedAtMostOnce` | server/server.go:652-666 | With Reloads, closes and opens racing in any way, no Open is closed twice, and none before its context is cancelled. |
| `Lifecycle.OneHandleAtATime` | server/reload.go:46-84 | However concurrent Reloads of one device interleave, two handles are never open at once. |
| `Lifecycle.NothingLeaks` | server/reload.go:64-84 | When all Reloads have returned, the only open handle is the recorded one, and it is the serving device's. |
| `ReloadOutcome.LastBuiltServes` | server/reload.go:64-84 | When all Reloads have returned, the device of the last successful rebuild serves, read off the outcomes of the run; it has an open handle of its own, the only one, if and only if the last Open succeeded. |
| `ReloadOutcome.BuiltIsIn` | server/reload.go:75-84 | Whenever a Reload is about to open, opens or records, the device it built is the one that serves. |
| `Lifecycle.FailedRebuild` | server/reload.go:64-72 | A failed rebuild leaves the old device serving, its handle open, and every handle as it was when this Reload got its turn. |
| `Lifecycle.SingleOpenExactly` | server/reload.go:46-84 | For any Reloads, closes and opens about to run, no schedule has two handles open if and only if at most one of the recorded handle, the Reloads and the opens is there, or only Reloads run, or only opens run on an open device. |
| `Lifecycle.UnregisterRaces` | server/server.go:337-355 | Any Unregister beside any Reload of an open device can leave two handles open. |
| `Lifecycle.RunSerialized` | server/reload.go:52-84 | In every reachable state of Reloads alone, the thread inside the lock is the only one past its start, and the handles are as its place in the code requires. |
| `Lifecycle.RunOwned` | server/server.go:613-666 | In every reachable state of any threads, an open handle is in the registration or in one thread's hand, never in two places. |
| `LostHandles.NoHandleLostExactly` | server/server.go:613-666 | For any Reloads, closes and opens about to run, every way they can all return leaves open at most the recorded handle, where a close finds it if one is still to come, if and only if nobody opens from outside a Reload, or one open runs and no Reload, or only opens run on an open device. |
| `LostHandles.NothingStaysOpenExactly` | server/server.go:337-355 | For any such race with a close in it, after which an unregistered or shut down device is closed by nobody else, every way all can return leaves every handle closed if and only if no Reload and no open runs beside the closes. |
| `LostHandles.LostForever` | server/server.go:613-666 | An open handle that is neither recorded nor in a thread's hand stays so in every continuation: no close finds it. |
| `LostHandles.NoDeadlock` | server/reload.go:46-84 | From every state of every such race all threads can still return. |
| `LostHandles.AlwaysOn` | server/reload.go:46-84 | In every reachable state every step but waiting for the lock is progress, however its call turns out. |
| `ConfigAdapter.ApplyToStruct` | server/settingstruct.go:160-190 | All values are written or none is, in whatever order the value map is walked. |
| `ConfigAdapter.ParseExactly` | server/settingstruct.go:192-261 | A text parses to a value if and only if, trimmed, it says that value in the field's kind, the type holds it, and validation finds it among the options and in range. |
| `ConfigAdapter.AcceptedMeans` | server/configadapter.go:114-152 | Key by key, the struct handed to Reconfigure has what the submitted unpinned texts say and elsewhere what the current ones say, of the right types and valid. |
| `ConfigAdapter.IntegerRanges` | server/settingstruct.go:207-232 | The ranges of the signed and unsigned fields of 8 to 64 bits. |
| `ConfigAdapter.ValidMeans` | server/settingstruct.go:192-261 | Validation: a string is among the options if there are any, a number within the bounds there are. |
| `ConfigAdapter.ValidateSame` | server/settingstruct.go:192-261 | Validation accepts or refuses a value, not a spelling of it. |
| `ConfigAdapter.TextRoundTrip` | server/settingstruct.go:263-277 | The text of a value reads back as the value, strings trimmed. |
| `ConfigAdapter.InitialStruct` | server/configadapter.go:33-57 | A fresh adapter stands for the host's entry, its strings trimmed. |
| `ConfigAdapter.StructConfig.constructor` | server/configadapter.go:33-57 | The adapter starts from the texts of the decoded entry. |
| `ConfigAdapter.StructConfig.ApplySettings` | server/configadapter.go:114-152 | A submission is accepted exactly when its overlay validates, changes no start-time field and Reconfigure takes it; then it is current, and otherwise nothing changes. |
| `ConfigAdapter.NextConsistent` | server/configadapter.go:114-152 | Acceptance keeps: locked keys at their initial values, and `current` rebuilt without validation equal to the struct last accepted. |
| `ConfigAdapter.StructConfig.PersistValues` | server/configadapter.go:158-177 | The typed values of the struct last accepted, without the pinned keys. |
| `ConfigAdapter.StructConfig.LoadSettings` | server/server.go:541-579 | Loading applies exactly the unlocked keys as one submission. |
| `ConfigAdapter.SavedRoundTrip` | server/server.go:583-598 | An accepted value, saved as JSON and turned into a form string, is accepted as the same value, integers within 2^53. |
| `ConfigAdapter.RestartRestores` | server/server.go:541-579 | Over the same host config, the saved values lead a fresh adapter to the struct last accepted, whatever else the file holds under locked or undeclared keys. |
| `ConfigAdapter.SaveAndRestart` | server/configadapter.go:154-177 | Persist, rebuild, load: the new adapter stands for the struct last accepted, and hands Reconfigure that struct if any key is unlocked. |
| `StripComments.StripComments` | devicemain/devicemain.go:412-448 | The in-place scan computes the lexer's rendering: comments blanked, an unterminated block's last byte kept. |
| `StripForms.LineComment` | devicemain/devicemain.go:428-431 | A line comment becomes spaces up to the newline, and stripping goes on there. |
| `StripForms.BlockCommentClosed` | devicemain/devicemain.go:432-443 | A block comment becomes spaces with its marks, its newlines stay, and stripping goes on behind it. |
| `StripForms.BlockCommentOpen` | devicemain/devicemain.go:432-443 | One that is never closed becomes spaces but for its last byte. |
| `StripForms.LiteralKept` | devicemain/devicemain.go:417-427 | A string literal stays, whatever escapes and comment marks it has. |
| `StripForms.OtherKept` | devicemain/devicemain.go:412-448 | Any other character stays. |
| `StripComments.TokensCover` | devicemain/devicemain.go:409-411 | The lexer loses nothing: its lexemes, put together, are the text. |
| `StripComments.StripBytes` | devicemain/devicemain.go:409-411 | Every byte is kept or blanked, newlines stay exactly where they are. |
| `StripComments.TokensOfStrip` | devicemain/devicemain.go:412-448 | Lexing the stripped text gives the same lexemes, string literals untouched, with comments turned into blanks. |
| `StripComments.StripSettles` | devicemain/devicemain.go:412-448 | No comment remains for a lexer to find, and a second pass is the identity. |
| `SettingTag.SplitTagPairs` | server/settingtag.go:136-163 | The splitter succeeds exactly when quotes balance and then returns the pieces between bare commas. |
| `SettingTag.SplitUnique` | server/settingtag.go:136-163 | It returns a list if and only if that list joins to the text and each piece balances its quotes and hides its commas. |
| `SettingTag.JoinOfSplit` | server/settingtag.go:136-163 | Joining the pieces gives any text back. |
| `SettingTag.SplitOfJoin` | server/settingtag.go:136-163 | Splitting joined pieces gives those pieces back. |
| `SettingTag.ParseSettingTag` | server/settingtag.go:58-133 | The loop computes the fold of the pairs, first error first, crossing bounds last. |
| `SettingTag.ParseWritten` | server/settingtag.go:58-133 | Parsing a tag written with quoted values makes exactly its settings, in any order and number. |
| `SettingSpelling.ParseSpelt` | server/settingtag.go:58-133 | A tag means what its settings say however they are spelt: keys in any letter case, flags as the key alone, values bare or quoted, options with blanks, white space around everything; what is not said is as in the default tag. |
| `SettingSpelling.PairExactly` | server/settingtag.go:70-128 | A pair is accepted if and only if it reads as one of the nine settings with a legal value, and then it makes that setting. |
| `SettingSpelling.PairRefused` | server/settingtag.go:70-128 | Which error a refused pair gets. |
| `SettingSpelling.UnquoteExactly` | server/settingtag.go:166-174 | Quotes are taken off if they are a pair of one mark around the whole value, and only then. |
| `SettingSpelling.OpenQuote` | server/settingtag.go:65-69 | A quote left open is refused as such before any pair is looked at, and nothing else is. |
| `SettingSpelling.FirstErrorWins` | server/settingtag.go:70-128 | The first pair refused decides the error, whatever comes behind it. |
| `SettingTag.SetAllHas` | server/settingtag.go:58-133 | With each key once, the tag holds every setting written. |
| `SettingTag.OrderFree` | server/settingtag.go:58-133 | Any permutation of distinct keys gives the same tag. |
| `RateGate.Gate.Take` | server/discovery_relay.go:133-150 | One call decides and updates as the bucket function says. |
| `RateGate.TokensInRange` | server/discovery_relay.go:126-150 | Tokens stay in [0, 20] over every run. |
| `RateGate.WindowBound` | server/discovery_relay.go:126-150 | Every window of calls from ti to tj grants at most 20 + 5*(tj-ti). |
| `RateGate.GateIsGreedy` | server/discovery_relay.go:126-150 | No way of deciding that keeps this bound ever grants more in total. |
| `RateGate.Refusal` | server/discovery_relay.go:144-146 | A refused call could not have been granted: some window would overflow. |
| `RateGate.GapGrants` | server/discovery_relay.go:126-150 | A gap of 0.2 s earns a grant. |
| `RateGate.BurstAfterIdle` | server/discovery_relay.go:126-150 | After 4 idle seconds, or at the start, twenty calls are granted however close together. |
| `Registry.LastLogged` | server/discovery_registry.go:99-120 | The reference: the last heartbeat of a key is the one after which the key was not heard from. |
| `Registry.SameDevice` | server/discovery_registry.go:102-113 | Heartbeats count for one device by unique id, without one by instance, without either by address and port, and for different devices otherwise. |
| `Registry.JoinedOnce` | server/discovery_registry.go:111-112 | No two addresses and ports have the same text, colons in the address or not. |
| `Registry.LiveSpan` | server/discovery_registry.go:123-136 | A device is live from its last heartbeat up to and including the end of the TTL. |
| `Registry.Registrations.Record` | server/discovery_registry.go:102-120 | A heartbeat replaces its key's entry and joins the log; the table keeps agreeing with the log. |
| `Registry.Registrations.Live` | server/discovery_registry.go:123-136 | The result lists, once each, exactly the keys whose last heartbeat in the whole log is no older than the TTL. |
| `Registry.Registrations.LocalPorts` | server/discovery_registry.go:140-150 | Without duplicates, exactly the ports of live local devices. |
| `Registry.Registrations.RelayTargets` | server/discovery_registry.go:157-173 | Exactly the live remote devices, each once, as last heard from. |
| `Registry.Registrations.ServeProbe` | cmd/discover_proxy/main.go:28-48 | One probe, two readings of the clock: no device is both answered for and relayed to, every live one is either, and a silent one only by sharing a live port. |
| `Registry.ServedThoughSilent` | server/discovery_registry.go:140-150 | A device silent past the TTL whose port another live one has. |
| `Rotator.RotatorDevice.CurrentMechanical` | sim/rotator.go:56-69 | Reading computes the angle function and settles an arrived move. |
| `Rotator.RotatorDevice.BeginMove` | sim/rotator.go:71-78 | A move starts from the present angle to the wrapped target. |
| `Rotator.RotatorDevice.Move` | sim/rotator.go:140-150 | Relative moves of a full turn or more are refused and change nothing. |
| `Rotator.MoveStarts` | sim/rotator.go:71-78 | A move starts where the rotator is, at its speed, and is under way if and only if it is not there already. |
| `Rotator.MoveTargets` | sim/rotator.go:140-150 | A relative move goes to the position shown plus the way asked for, wrapped. |
| `Rotator.HaltStays` | sim/rotator.go:122-130 | After Halt the rotator stays where it was at that instant, for good, with that position as its target. |
| `Rotator.DeltaShortest` | sim/rotator.go:175-185 | No congruent way around is shorter than the delta. |
| `Rotator.DeltaTurns` | sim/rotator.go:175-185 | The delta leads from one angle to the other and lies in [-180, 180]. |
| `Rotator.MinusHalfTurn` | sim/rotator.go:175-185 | The delta is -180 if and only if the target lies below by half a turn and whole turns; for angles in [0, 360), if and only if it lies 180 below. |
| `Rotator.AnglesInRange` | sim/rotator.go:56-105 | Mechanical, sky and target angles are in [0, 360) and every operation keeps the state valid. |
| `Rotator.RemainingDelta` | sim/rotator.go:56-69 | On the way, the delta still to go has the direction of the move and the length not yet traveled. |
| `Rotator.RemainingDistance` | sim/rotator.go:56-69 | The distance to go is max(0, abs(delta) - rate*t). |
| `Rotator.Reissue` | sim/rotator.go:71-78 | Ordering the same mechanical target again changes no later answer. |
| `Rotator.Undisturbed` | sim/rotator.go:56-78 | Any run of reads and repeated orders leaves every later position, target and moving flag as it would have been. |
| `Rotator.MoveAbsoluteTargets` | sim/rotator.go:132-138 | MoveAbsolute(p) shows p, wrapped, as the target at once and as the position on arrival, for every p. |
| `Rotator.SyncShows` | sim/rotator.go:160-165 | Sync(p) makes the position p, wrapped, and leaves the mechanical angle alone, then and later, for every p. |
| `TelescopeDrift.TelescopeDevice.SettleRates` | sim/telescope.go:189-199 | Folding moves start and target by the drift accrued and restarts the drift clock. |
| `TelescopeDrift.TelescopeDevice.RightAscension` | sim/telescope.go:213-232 | Reading computes the drifted right ascension and changes nothing. |
| `TelescopeDrift.TelescopeDevice.SetTrackingRate` | sim/telescope.go:588-599 | Folds, and drops the offsets when the drive rate changes. |
| `TelescopeDrift.FoldOnce` | sim/telescope.go:177-199 | Folding at any instant leaves every later RA and Dec as they would have been, through wrap and clamp. |
| `TelescopeDrift.DriftCountedOnce` | sim/telescope.go:574-599 | So does any run of setters repeated with the values already set. |
| `TelescopeDrift.RateChange` | sim/telescope.go:685-705 | After a new rate the pointing goes on from where it is, at that rate alone. |
| `TelescopeDrift.TrackingSwitch` | sim/telescope.go:574-582 | Switched off, tracking leaves the pointing where it is; on again, it goes on from there at the rates set. |
| `TelescopeDrift.DriveRateChange` | sim/telescope.go:588-599 | Another drive rate drops both offsets for good: the pointing stays, also when the former rate comes back. |
| `TelescopeDrift.FoldKeepsTarget` | sim/telescope.go:189-199 | Folding carries the target along and leaves the start at the present pointing. |
| `TelescopeDrift.FoldVisible` | sim/telescope.go:234-252 | Folding is invisible in Dec if and only if the start declination is on the sphere or drifts away from it. |
| `TelescopeGates.GateOrder` | server/telescope_http.go:140-143 | Each gate answers in the documented order (capability, ranges, parked, mode), except for MoveAxis on an axis that neither exists nor can be moved. |
| `TelescopeGates.GateOpen` | server/gates.go:405-636 | A call passes if and only if the mount can do it, its numbers are in range or NaN, no motion meets a parked mount, and the mode allows it. |
| `TelescopeGates.AxisRateMeans` | server/gate.go:42-55 | An axis rate passes if and only if it is zero or its size lies in a range the mount reports; NaN never does. |
| `TelescopeGates.InRangeUnlessNaN` | server/gate.go:19-24 | What passes is in range if and only if none of its ranged numbers is NaN. |
| `TelescopeDispatch.Telescope.HandlePut` | server/httpserver.go:243-279 | For any driver, the ordered checks and calls compute the reply, the calls the driver gets, and what the targets of an embedded BaseTelescope become. |
| `TelescopeDispatch.Telescope.Put` | server/telescope_http.go:144-413 | A refused call reaches nobody; an accepted one reaches the driver, and a coordinate slew or sync then sets both targets. |
| `TelescopeDispatch.WhoseTargets` | server/telescope.go:165-198 | A driver with targets of its own answers for them and leaves the embedded ones alone; one without is seen with the embedded ones. |
| `TelescopeDispatch.Telescope.SetTargetRightAscension` | server/telescope.go:190-198 | An out-of-range write is refused and changes nothing; another is stored exactly. |
| `TelescopeDispatch.Telescope.SetTargetDeclination` | server/telescope.go:173-181 | The same for the declination. |
| `TelescopeDispatch.Telescope.TargetRightAscension` | server/telescope.go:182-189 | Reads the stored value, an error until one is set. |
| `TelescopeDispatch.ReachesDriver` | server/httpserver.go:243-279 | A PUT reaches the driver if and only if it asks for a call that connection, busy state and mount allow; then it is the first call made. |
| `TelescopeDispatch.CallReaches` | server/httpserver.go:114-157 | Of the calls asked for, a mount that is not connected gets connects and disconnects only, and a busy one these, aborts, axis moves, actions and commands. |
| `TelescopeDispatch.AwayOrBusy` | server/httpserver.go:243-279 | Which members are refused on a mount that is not connected or busy, and with which answer. |
| `TelescopeClient.ClientCallArrives` | server/telescope_http.go:144-413 | A client's call reaches the driver as itself, if and only if connection, busy state and gate allow it. |
| `TelescopeDispatch.SafeRuns` | server/telescope_http.go:140-413 | For every run of PUTs to any driver: no slew, sync, MoveAxis, PulseGuide, FindHome, AbortSlew or start of tracking meets a disconnected or parked mount, and of these a busy mount gets only AbortSlew and MoveAxis. |
| `TelescopeDispatch.TargetCallsNeedBothTargets` | server/gate.go:98-106 | With BaseTelescope targets a target slew or sync reaches the driver only after accepted PUTs wrote both targets. |
| `TelescopeDispatch.TargetsAreLastWritten` | server/gate.go:83-93 | The targets always read back the last accepted write, target write or coordinate slew or sync. |
| `TelescopeDispatch.ReadBack` | server/gate.go:83-93 | An accepted coordinate slew or sync reads back exactly until the next accepted target write. |
| `TelescopeDispatch.TargetsStaySound` | server/telescope.go:165-198 | The stored targets are always coordinates, NaN aside. |
| `TelescopeDispatch.NaNReachesDriver` | server/telescope_http.go:420-435 | A slew to right ascension NaN passes every gate of a ready mount: its comparisons are all false. |

## Left out

- Go's int: products of dimensions are unbounded here, so the overflow of 64-bit sizes is not modelled.
- Buffer pool, Content-Length, HTTP headers and the text around a JSON Value; an envelope is its Type, Rank and Value.
- haltReader, pctOf, clamp and mutateBytes of the fault proxy: only easy members.
- 64-bit and floating-point samples: printed by an abstract function of their bytes, and not part of the JSON round trip.
- ImageJsonDecode.DecodeImageArrayJSON: does not say which float64 a decimal literal is rounded to: rounding is a parameter, of which the round trip asks that it leaves integers of 32 bits alone.
- ImageDownload.Download: does not cover bodies with a column or more too many, where the sink of the tests indexes its array past the end or, without rows, loops forever, nor overlong bodies for the parallel sink, whose goroutines can then race for a pixel.
- Sinks.U16Sink.ParWrite: does not cover samples that share a pixel, because goroutines could then race for it.
- Conversion of an out-of-range float64 to an integer, which Go leaves to the implementation, keeps the low bits here.
- encoding/json and reflection: a config struct is a map from the names of its visible fields to typed values.
- Float32 fields and 64-bit float rounding of range checks: values are reals, and float text is an abstract inverse pair.
- Which of several errors a refused submission reports, and every error message.
- Invalid UTF-8 and strings.ToLower beyond ASCII in setting tags.
- The table and order of devices, ReloadAll, settings storage, and devices without hardware, which count as an Open that fails.
- Lifecycle: steps are values rather than a class, because threads must interleave between the statements of one call.
- Goroutine writes are atomic per byte or sample; the waits at the end of the parallel loops are not modelled.
- A body read that returns data together with an error, a nil latch, and a sink that counts fewer bytes without an error.
- writeSchemaCommented: a client of the stripper that prints one schema.
- Addresses are the normalised strings net.IP prints; the relay's HTTP requests are not modelled.
- Clocks: each call makes one reading, and readings do not go back.
- Rotator rates below zero, and the telescope's slews, MoveAxis, parking, pulse guiding and horizontal coordinates.
- IEEE rounding; NaN and infinities are modelled in the telescope gates only.
- The spelling of parameter names, strict or lax, and the parsing of parameter text: a parameter is what it parses as.
- A mount that changes between a gate's reading of it and the driver call: one request sees one set of readings.
- GET members, and the PUT members of other device types beyond their place in the connection and busy tables.

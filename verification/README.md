# rdp-mcp, verified

A Dafny model of the parts of rdp-mcp in which state travels far: the JSON codec between
the processes, the way of a painted pixel from the remote desktop to a viewer, the
clipboard file download, the life of sessions and workers, and resizing.

- **JSON** (`Json*.dfy`, `Utf8.dfy`, `Decimal.dfy`). `JsonText` says as functions what the
  printer writes and the parser accepts; `JsonParser` and `JsonPrinter` are cJSON's loops
  over a cursor, a growing buffer and doubly linked nodes, proved equal to these functions.
  `JsonGrammar` is the grammar of RFC 8259 with its meaning, written without them: every JSON
  text is read as what it means (`JsonReads`), what is accepted is such a text but for stated
  leniency (`JsonAccepts`), and what is printed is one (`JsonLayout`); the round trips follow. Numbers are exact: `strtod` is modelled
  on the characters a JSON number may use.
- **Frames** (`Paint`, `Connection`, `NativeOutput`, `Framing`, `WorkerStream`,
  `Supervisor`, `SerdeJson`, `Session`, `SessionCallbacks`, `Pipeline`, `Preview`,
  `ImageScale`, `Pixels`). One file for each stage, a state machine or loop each, and in
  `Pipeline` the statement about all of them together. Readers give their bytes in any
  pieces, streams break off anywhere, and locks may be busy.
- **Downloads** (`Downloads`, `CliprdrFile`, `DownloadRuns`, `DownloadProgress`,
  `ClipboardLocks`). The module's globals as a class whose methods are proved equal to step
  functions; runs of these steps against an abstract server; and the two threads with the
  PDUs they send outside the mutex.
- **Sessions and workers** (`Lifecycle`). One step for each critical section of open,
  connect, close and shutdown, interleaved at will.
- **Resizing** (`DisplayControl`). The rate-limited queue of one, over every run.

The network, clocks, the file system, process starts and the image encoders are parameters:
nondeterministic choices, times that do not go back, an abstract server, and an unknown
function from pixels to an encoded picture.

`dafny verify dfyconfig.toml` checks the project.

What is not as one might expect, and is proved so:

- A JSON text with a numeral of more than 63 characters is refused, or, alone and without the
  check for the terminator, read by the first 63; one with an escape of a surrogate that stands
  alone is refused (`JsonReads.DocumentIsRead`, `ALongNumeralIsRefused`).
- A file whose size is a positive multiple of 2^32 stops the download queue, until the
  server reports a failure or the download is cancelled, because its first range request is
  empty (`DownloadProgress.FirstRangeIsEmptyExactly`,
  `AHugeFileStopsTheQueue`); with a fair server nothing else does (`DownloadsComeThrough`).
- A file is reported done when the stream of its temp file accepted all of it. It may not be on
  the disk: a failed flush or close is only logged, and a failed open of an empty file is
  ignored (`DownloadProgress.AFileCanBeCutShort`, `AnEmptyFileCanBeMissing`;
  `DownloadRuns.FilesAreTheirSources` has the exact condition).
- A resize the channel refuses is forgotten until the next request
  (`DisplayControl.LatestWinsUnlessRefused`, `AskingWinsUnlessRefused`).
- The two passes over a JSON string can get out of step, and the buffer is large enough all
  the same (`JsonSizing`).
- An object with a repeated key need not equal its own copy
  (`JsonCompare.RepeatedKeyIsNotReflexive`).

## Model

| member | source | states |
|---|---|---|
| JsonReads.DocumentIsRead | native/freerdp-helper/src/cjson/cJSON.c:1104-1182 | Every JSON text of RFC 8259, a syntax tree spelled out character by character with any blanks, escapes and hex digits of either case, with or without a byte order mark, is read from its zero-terminated form as the value it denotes, strings cut at zero bytes, iff it is nested at most 1000 deep, has no numeral of more than 63 characters and no escape of a surrogate that stands alone. |
| JsonReads.UncheckedDocumentIsRead | native/freerdp-helper/src/cjson/cJSON.c:1088-1187 | The same for cJSON_Parse, which does not check what follows the value; a document that is one longer numeral is read by its first 63 characters. |
| JsonReads.ValueReads | native/freerdp-helper/src/cjson/cJSON.c:1325-1377 | At any place and depth parse_value reads such a text to its end under the same condition, and otherwise fails or stops within a numeral. |
| JsonReads.MembersRead | native/freerdp-helper/src/cjson/cJSON.c:1614-1729 | The same for the member loop of parse_object, with blanks around every key, colon and value. |
| JsonReads.StringReads | native/freerdp-helper/src/cjson/cJSON.c:781-908 | A string of plain bytes, two-character escapes, \u escapes and surrogate pairs is stored as the bytes it denotes, up to the first zero byte, and is refused iff a surrogate stands alone. |
| JsonReads.NumberReads | native/freerdp-helper/src/cjson/cJSON.c:307-380 | A numeral of up to 63 characters gives the exact number it denotes, with fraction and exponent; a longer one is read by its first 63. |
| JsonReads.ALongNumeralIsRefused | native/freerdp-helper/src/cjson/cJSON.c:313-343 | A concrete JSON text, a number of 64 digits, that is refused. |
| JsonAccepts.DocumentForm | native/freerdp-helper/src/cjson/cJSON.c:1104-1182 | Conversely, whatever buffer is accepted holds a text of a wider grammar nested at most 1000 deep, with the brackets, commas, colons and literals of RFC 8259, and the result is what it denotes; where the terminator is checked only blanks follow. |
| JsonAccepts.StringForm | native/freerdp-helper/src/cjson/cJSON.c:781-908 | That grammar's strings: control characters as they are, and four characters that are no hex digits behind \u for a zero; a quote inside only behind such a \u. |
| JsonAccepts.NumeralForm | native/freerdp-helper/src/cjson/cJSON.c:307-380 | And its numerals: leading zeros, and no digits on one side of the point, up to 63 characters; the value is what they denote. |
| JsonLayout.PrintedIsJson | native/freerdp-helper/src/cjson/cJSON.c:1380-1451 | What print_value writes for a tree, in either layout, is a JSON text of RFC 8259 that denotes that tree. |
| JsonGrammar.NothingCut | native/freerdp-helper/src/cjson/cJSON.c:883-891 | Storing C strings loses nothing iff no text and no key has a zero byte. |
| JsonDocument.ParseOfPrint | native/freerdp-helper/src/cjson/cJSON.c:1104-1843 | Parsing the printed text of a tree, formatted or not, gives back that tree, and exactly when it is nested at most 1000 deep; otherwise it is refused. The text may be followed by anything that does not continue a number. |
| JsonDocument.ParseOfPrintedCString | native/freerdp-helper/src/cjson/cJSON.c:1088-1192 | The same for the zero-terminated text cJSON_Parse gets, with and without the check for the terminator. |
| JsonRoundTrip.ValueRoundTrip | native/freerdp-helper/src/cjson/cJSON.c:1325-1451 | At any place of a longer text and at any depth, parse_value reads exactly the printed value and stops right behind it, iff the nesting still fits the limit. |
| JsonRoundTrip.StringRoundTrip | native/freerdp-helper/src/cjson/cJSON.c:781-1030 | parse_string undoes print_string_ptr for every text without a zero byte. |
| JsonDocument.PrintIsInjective | native/freerdp-helper/src/cjson/cJSON.c:1380-1451 | No two printable trees within the nesting limit have the same text. |
| JsonDocument.LayoutsAgree | native/freerdp-helper/src/cjson/cJSON.c:1264-1272 | cJSON_Print and cJSON_PrintUnformatted carry the same tree. |
| JsonDocument.Reparse | native/freerdp-helper/src/cjson/cJSON.c:1104-1182 | Whatever document is accepted, its value with 32-bit integers prints to a text that is read as the same value again. |
| JsonUnicode.UnicodeEscapes | native/freerdp-helper/src/cjson/cJSON.c:623-778 | A body of \\u literals with valid hex is read as the UTF-8 form of the scalar values its code units encode, and is rejected exactly when a surrogate stands alone. |
| JsonUnicode.Utf16RoundTrip | native/freerdp-helper/src/cjson/cJSON.c:660-778 | Every sequence of scalar values has a form in UTF-16 code units, surrogate pairs above U+FFFF, that denotes it. |
| JsonUnicode.EscapedTextIsRead | native/freerdp-helper/src/cjson/cJSON.c:623-908 | Written out as \u literals, every sequence of scalar values is a string that is read as its UTF-8 form, up to the first zero byte. |
| Utf8.DecodeOfEncode | native/freerdp-helper/src/cjson/cJSON.c:714-768 | The bytes written for a scalar value are its UTF-8 form of RFC 3629 section 3: an independent decoder gives the value back. |
| JsonSizing.DecodedFits | native/freerdp-helper/src/cjson/cJSON.c:793-895 | From any point of the body on, what the decoding loop still writes fits into what the sizing loop still counted, even where bad hex digits put the two loops out of step. |
| JsonSizing.AllocationSuffices | native/freerdp-helper/src/cjson/cJSON.c:805-826 | The decoded text and its terminator fit the buffer the first pass allocated, for every input. |
| JsonSizing.PassesPartWays | native/freerdp-helper/src/cjson/cJSON.c:644-647 | A concrete body on which the two loops do get out of step: the second takes the closing quote for an escaped one. |
| JsonParser.ParseBuffer.SkipWhitespace | native/freerdp-helper/src/cjson/cJSON.c:1047-1070 | The offset moves over blanks, and steps back onto the last byte when it ran off the end. |
| JsonParser.ParseBuffer.ParseNumber | native/freerdp-helper/src/cjson/cJSON.c:307-380 | At most 63 number characters are copied and converted; the offset moves behind the numeral. |
| JsonParser.ParseBuffer.ParseHex4 | native/freerdp-helper/src/cjson/cJSON.c:623-657 | Four hex digits make their value, anything else makes 0. |
| JsonParser.ParseBuffer.Utf16LiteralToUtf8 | native/freerdp-helper/src/cjson/cJSON.c:660-778 | The bytes written in place, last one first, are the UTF-8 form of the literal or pair; 0 for an unpaired surrogate. |
| JsonParser.ParseBuffer.FindStringEnd | native/freerdp-helper/src/cjson/cJSON.c:793-826 | The first pass finds the first quote that no backslash escapes, and counts the backslashes it passed. |
| JsonParser.ParseBuffer.Unescape | native/freerdp-helper/src/cjson/cJSON.c:827-891 | The second pass writes the decoded body into the buffer the first one sized, without leaving it. |
| JsonParser.ParseBuffer.ParseString | native/freerdp-helper/src/cjson/cJSON.c:781-908 | parse_string stores the C string of the decoded literal and moves behind it, or fails. |
| JsonParser.ParseBuffer.ParseValue | native/freerdp-helper/src/cjson/cJSON.c:1325-1377 | parse_value builds a node tree that is the value denoted at the offset, or fails exactly when there is none; offset and depth are as specified. |
| JsonParser.ParseBuffer.ParseArray | native/freerdp-helper/src/cjson/cJSON.c:1454-1549 | The same for arrays: the child list built in place is the list of elements. |
| JsonParser.ParseBuffer.ParseObject | native/freerdp-helper/src/cjson/cJSON.c:1614-1729 | The same for objects and their keys. |
| JsonParser.Parse | native/freerdp-helper/src/cjson/cJSON.c:1104-1182 | cJSON_ParseWithLengthOpts returns a fresh, properly linked tree that is the document's value, and null exactly when the text is no document. |
| JsonPrinter.PrintBuffer.Ensure | native/freerdp-helper/src/cjson/cJSON.c:447-530 | Room is made iff the need fits the limit (INT_MAX, or the preallocated buffer), and everything before the offset is kept through growing. |
| JsonPrinter.PrintBuffer.UpdateOffset | native/freerdp-helper/src/cjson/cJSON.c:533-543 | The offset moves over exactly the text written behind it. |
| JsonPrinter.PrintBuffer.CountEscapes | native/freerdp-helper/src/cjson/cJSON.c:927-958 | The counting pass plus the input's length is exactly the length the copying pass writes. |
| JsonPrinter.PrintBuffer.CopyAll | native/freerdp-helper/src/cjson/cJSON.c:980-1025 | The copying pass writes exactly the escaped text behind what was there. |
| JsonPrinter.PrintBuffer.PrintString | native/freerdp-helper/src/cjson/cJSON.c:911-1030 | print_string_ptr writes the escaped text in quotes, iff there is room for it. |
| JsonPrinter.PrintBuffer.PrintNumber | native/freerdp-helper/src/cjson/cJSON.c:553-620 | A 32-bit integer is appended in decimal. |
| JsonPrinter.PrintBuffer.PrintValue | native/freerdp-helper/src/cjson/cJSON.c:1380-1451 | print_value appends exactly the rendering of the tree to the buffer's text, iff it fits the limit. |
| JsonPrinter.PrintBuffer.PrintArray | native/freerdp-helper/src/cjson/cJSON.c:1552-1611 | The same for arrays, in both layouts. |
| JsonPrinter.PrintBuffer.PrintObject | native/freerdp-helper/src/cjson/cJSON.c:1732-1843 | The same for objects, in both layouts, indentation included. |
| JsonPrinter.Print | native/freerdp-helper/src/cjson/cJSON.c:1196-1261 | print returns the zero-terminated rendering in a buffer of exactly its size, or null iff the text exceeds INT_MAX; with and without a reallocating hook. |
| JsonPrinter.PrintPreallocated | native/freerdp-helper/src/cjson/cJSON.c:1305-1322 | cJSON_PrintPreallocated succeeds iff the buffer is two bytes longer than the text, and then holds it. |
| JsonPrinter.PrintedIsClean | native/freerdp-helper/src/cjson/cJSON.c:533-543 | No rendering holds a zero byte, which is what lets strlen find the end of the text. |
| JsonList.GetArrayItem | native/freerdp-helper/src/cjson/cJSON.c:1869-1886 | Walking the list gives the item at the index, or null behind the end. |
| JsonList.AddItemToArray | native/freerdp-helper/src/cjson/cJSON.c:1974-2005 | Appending keeps the list shape (null-ended next links, head.prev the tail) and adds the item last; on a list that is not empty exactly when the item's own next link was null. |
| JsonList.DetachItemViaPointer | native/freerdp-helper/src/cjson/cJSON.c:2205-2239 | Detaching removes exactly that item from the sequence, wherever it stood, and unlinks it. |
| JsonList.InsertItemInArray | native/freerdp-helper/src/cjson/cJSON.c:2281-2312 | Inserting puts the item in front of the one at the index, or last; the error cases are stated both ways. |
| JsonList.ReplaceItemViaPointer | native/freerdp-helper/src/cjson/cJSON.c:2315-2362 | Replacing puts the new item at the place of the old one and cuts that loose. |
| JsonList.InsertUndoesRemove | native/freerdp-helper/src/cjson/cJSON.c:2205-2312 | Inserting an item where it was detached restores the sequence. |
| JsonTreeOps.GetObjectItem | native/freerdp-helper/src/cjson/cJSON.c:1898-1928 | The first member with the key, case sensitive, or null. |
| JsonTreeOps.CompareNodes | native/freerdp-helper/src/cjson/cJSON.c:3009-3132 | cJSON_Compare on two node trees that share nothing, or that are sound (printable, no contradicting keys) and may overlap at will, decides the comparison of the values they stand for. |
| JsonTreeOps.Duplicate | native/freerdp-helper/src/cjson/cJSON.c:2729-2810 | A recursive copy is a new, properly linked tree of the same value that shares no node with its source; a shallow one holds no children. |
| JsonCompare.CompareIsEquality | native/freerdp-helper/src/cjson/cJSON.c:3009-3132 | Case-sensitive comparison is equality of canonical forms, that is, up to the order of members, on coherent trees (no member contradicts the first of its key). |
| JsonCompare.CompareIsSame | native/freerdp-helper/src/cjson/cJSON.c:3009-3132 | Where no key is repeated, comparison is equality but for the order of members: leaves are equal, arrays item by item, objects have the same keys with the same values. |
| JsonCompare.CompareIsPartialEquivalence | native/freerdp-helper/src/cjson/cJSON.c:3009-3132 | Comparison is symmetric and transitive, and a tree equals itself, and so its copy, iff it is coherent. |
| JsonCompare.DistinctIsCoherent | native/freerdp-helper/src/cjson/cJSON.c:3074-3126 | Trees without repeated keys are coherent, so on them comparison is an equivalence. |
| JsonCompare.ReorderedIsEqual | native/freerdp-helper/src/cjson/cJSON.c:3074-3126 | Members of distinct keys may be reordered without comparison noticing. |
| JsonCompare.RepeatedKeyIsNotReflexive | native/freerdp-helper/src/cjson/cJSON.c:3088-3100 | A concrete object with a repeated key that does not equal its own copy. |
| JsonCompare.CompareInts | native/freerdp-helper/src/cjson/cJSON.c:546-550 | On 32-bit integers the tolerance of compare_double makes no difference. |
| Framing.WireFormat | src/worker.rs:254-265 | A message on the wire: four bytes of kind and four of length, lowest first, then both parts of the payload. |
| Framing.ReadOneIs | src/worker.rs:230-252 | A message is read exactly if its bytes stand at the front and its payload has at most 268435464 bytes; the end exactly if nothing is left and nothing broke. |
| Framing.ReadOfEncoded | src/worker.rs:230-265 | A written message is read back, its two parts joined, and nothing behind it is touched. |
| Framing.ReadOfCutStream | src/worker.rs:230-252 | A stream cut anywhere yields exactly the messages it holds in full, and a clean end iff the cut falls between two messages. |
| Framing.ReadOfWhole | src/worker.rs:230-265 | Every sequence of messages within the payload limit decodes to itself. |
| WorkerStream.Reader.ReadExact | src/worker.rs:240-240 | read_exact under any fragmentation and interruption fills the buffer iff the stream has that much. |
| WorkerStream.ReadMessage | src/worker.rs:230-252 | read_message with its reused payload buffer reads one message off the front, a clean end or a failure, however the bytes arrive. |
| WorkerStream.ReadEvents | src/worker.rs:203-228 | read_events hands on exactly the events of the stream, in order, and asks the supervisor to close or stop exactly after errors and disconnects. |
| WorkerStream.DeliverOfCutStream | src/worker.rs:203-252 | A cut stream delivers exactly the events of the messages it holds in full. |
| WorkerStream.WriteMessage | src/worker.rs:254-265 | A message is written whole, or cut short when the writer fails, or not at all when it is too large. |
| Supervisor.Supervise | src/worker.rs:119-145 | The supervisor ends at the first turn that shows the child gone, a stop, or three seconds after the first request to close; later requests do not put that off. |
| Supervisor.TextObjectSpelled | src/worker.rs:108-158 | The texts of an error and of an end without one, letter by letter. |
| Supervisor.WorkerEndIsReported | src/worker.rs:108-158 | However a worker ends, its session is disconnected with the stream's failure, else the error it had, else what the exit says. |
| Paint.ClipIsIntersection | native/freerdp-helper/src/connection.c:192-198 | The clipped rectangle is the intersection of the dirty rectangle and the desktop; nothing is sent iff that is empty. |
| Paint.RectPixelAt | native/freerdp-helper/src/connection.c:200-220 | In each pixel of the converted rectangle red, green and blue are the third, second and first byte of the desktop pixel under it, and the fourth byte is 255. |
| Connection.Gdi.ConvertRect | native/freerdp-helper/src/connection.c:200-220 | The conversion loops fill the buffer with exactly these pixels. |
| Connection.Gdi.EndPaint | native/freerdp-helper/src/connection.c:169-237 | One message with the painted part of the desktop goes out, or none. |
| Connection.Gdi.DesktopResize | native/freerdp-helper/src/connection.c:239-272 | The desktop has the new size or, when its buffer cannot be replaced, stays as it was; the new size is announced in either case. |
| NativeOutput.BitmapHeaderFields | native/freerdp-helper/src/output.c:149-158 | The sub-header holds x, y, width and height, two bytes each, the lower one first. |
| NativeOutput.Output.Send | native/freerdp-helper/src/output.c:103-133 | Both ways out, callback and stream, put the same message on the stream. |
| NativeOutput.Output.SendBitmap | native/freerdp-helper/src/output.c:141-190 | Header and pixels go out as one bitmap message, both ways; of more than 32 bits of length the callback gets the last 32 bits. |
| SerdeJson.DimensionsTextIsRendered | native/freerdp-helper/src/output.c:203-207 | The text of CONNECTED and RESIZED is what the JSON printer writes for that object. |
| SerdeJson.DimensionsTextSpelled | native/freerdp-helper/src/output.c:134-138 | And it is, letter by letter, an object with width and height. |
| SerdeJson.DimensionsArrive | src/session.rs:725-729 | The parent reads the dimensions that were sent; negative ones as 0. |
| Session.BlitPixel | src/session.rs:768-776 | A blit of clipped rows changes the pixels under it to the ones given, and no others. |
| Session.ActKeepsValid | src/session.rs:709-779 | Every message and every stop keeps the framebuffer at width*height*4 bytes until the session is stopped, and sizes within 8192. |
| Session.StatusOnlyAdvances | src/session.rs:210-225 | Over every run the status only moves from connecting over connected to disconnected, and the version never falls. |
| Session.NeverConnectedAgain | src/session.rs:61-74 | After an error or a stop check_connected never succeeds again. |
| Session.ConnectedSinceReady | src/session.rs:709-724 | A session is closed exactly by a stop or a message of kind 3, and until then connected exactly since one of kind 0; check_connected and the status follow from that and the error alone. |
| Session.ErrorArises | src/session.rs:709-779 | What brings an error up: kind 255 with its text, a bitmap that has not the pixels its header says once there is a desktop, and a stop with a reason; nothing else. |
| Session.StoppedIsFrozen | src/session.rs:88-98 | After a stop no message changes anything. |
| Session.StopKeepsTheError | src/session.rs:88-98 | A stop does not replace an error that is already there, and that error is what is reported from then on. |
| Session.VersionNamesFrame | src/session.rs:725-779 | Two visible frames of one session with the same version are the same frame, whatever happened between them, resizes back to the same size included. |
| SessionCallbacks.CallbackState.HandleNativeOutput | src/session.rs:709-749 | The handler, working in place, takes the state where the step function says. |
| SessionCallbacks.CallbackState.PaintBitmap | src/session.rs:751-779 | apply_bitmap in place: the bitmap is blitted, clipped or refused as specified. |
| SessionCallbacks.CallbackState.StopWith | src/session.rs:88-98 | stop in place. |
| SessionCallbacks.CallbackState.Sample | src/session.rs:326-342 | A frame is seen iff the lock is free and the session connected, unfailed and painted. |
| SessionCallbacks.Replay | src/worker.rs:108-118 | The events of a stream, handled in place one after the other, make the run of the state machine. |
| Pipeline.SessionMirrorsDesktop | src/session.rs:709-779 | After all messages arrived, every pixel of the session shows, byte by byte, red, green and blue of the desktop pixel at the last paint that covered it since the size was last announced, and zeros where nothing was painted; it is connected iff READY was said, and has a frame iff something on the desktop was painted. |
| Pipeline.WhatViewersSee | src/session.rs:326-342 | So check_connected, the status and the frame viewers get are told from the native side's steps alone: a frame is seen iff READY was said and something was painted, with the announced size and the bytes of the last paint under each pixel. |
| Pipeline.DesktopArrives | src/worker.rs:203-265 | The whole way, wherever the stream breaks off: the session shows the desktop of a prefix of the native side's steps pixel for pixel, and of all of them when the stream arrived in full. |
| Pipeline.PaintStep | src/session.rs:751-779 | One paint, through clipping, conversion, header and clipped row copies, keeps session and desktop alike. |
| Pipeline.PaintedIsMessage | native/freerdp-helper/src/connection.c:222-224 | What cb_end_paint writes is the message of that step. |
| Pipeline.AnnouncedIsMessage | native/freerdp-helper/src/connection.c:270-270 | What cb_desktop_resize writes is the message of that step. |
| Preview.CacheIsExact | src/preview.rs:68-111 | Over every run of session changes and pulls the cached viewer sends exactly the parts a viewer sends that encodes every frame it samples. |
| Preview.NewViewerIsExact | src/preview.rs:61-67 | That holds for a viewer that joins at any point of a session's life. |
| Preview.ChangeKeepsFresh | src/session.rs:725-738 | No change of the session makes a cached part stale under its own key. |
| Preview.PullSends | src/preview.rs:75-104 | One pull, whatever is cached: the stream ends iff the session stopped or failed and the lock is free; nothing is sent while it is taken, before READY and without a picture; else the part of the JPEG of all colours of the desktop with its width and height. |
| Preview.MultipartSpelled | src/preview.rs:127-136 | The head of a part, its length and its line ends, letter by letter. |
| Preview.ReadOfParts | src/preview.rs:127-136 | A client that finds each part by its Content-Length gets every picture back, whatever bytes it is made of. |
| Preview.Viewer.Pull | src/preview.rs:75-104 | One turn of the loop, in place: sample, compare keys, encode or keep. |
| Preview.Viewer.Encode | src/image.rs:18-60 | For a preview the encoder gets the whole frame, unscaled, without alpha. |
| ImageScale.ClampIsIntersection | src/image.rs:82-100 | The clamped region is the requested one's part of the desktop, and there is none iff that is empty. |
| ImageScale.CropRgba | src/image.rs:102-113 | Each pixel of the crop is the source pixel under it. |
| ImageScale.ResizeNearest | src/image.rs:115-134 | Each pixel of the target is the source pixel its coordinates scale to; all indices are in range. |
| ImageScale.NearestIs | src/image.rs:124-126 | The source coordinate x read for the target coordinate i is the one with x*target <= i*source < (x+1)*target. |
| ImageScale.NearestInRange | src/image.rs:124-126 | A scaled coordinate lies inside the source. |
| ImageScale.NearestIsInjective | src/image.rs:124-126 | Scaling down reads different source coordinates for different target coordinates, in order. |
| ImageScale.SamplesDiffer | src/image.rs:123-131 | Distinct pixels of a picture scaled down read distinct pixels of the framebuffer. |
| ImageScale.TargetHeightBounds | src/image.rs:38-39 | The target height is at least 1 and at most the source height, so the narrowing cast keeps it. |
| ImageScale.TargetHeightIsRounded | src/image.rs:38-39 | The target height is the true proportion rounded, halves upwards, and 1 where that would be 0. |
| ImageScale.NoOverflow | src/image.rs:38-39 | Its 64-bit arithmetic does not overflow. |
| ImageScale.MakePicture | src/image.rs:27-43 | encode up to the encoders: fails iff the framebuffer or the region is wrong; otherwise the picture is max_width wide iff that is between 0 and the region's width, with its height in proportion, and as large as the region if not, and cropping and then scaling reads the same pixels as sampling the framebuffer directly. |
| ImageScale.WholePicture | src/image.rs:33-45 | Without region and limit the picture is the framebuffer. |
| ImageScale.RgbPixel | src/image.rs:136-142 | Dropping alpha keeps each pixel's colours. |
| ImageScale.RgbaToRgb | src/image.rs:136-142 | The loop over chunks of four computes that. |
| CliprdrFile.Clipboard.SendFileContentsRequest | native/freerdp-helper/src/cliprdr_file.c:285-314 | The stream id advances and wraps, the entry takes it, and the request goes out iff the channel accepts it. |
| CliprdrFile.Clipboard.StartNextDownload | native/freerdp-helper/src/cliprdr_file.c:320-395 | The loop over the queue ends in the state, events and request that the step function says. |
| CliprdrFile.Clipboard.FileContentsResponse | native/freerdp-helper/src/cliprdr_file.c:620-804 | The reply callback, in place, does what the step function says. |
| CliprdrFile.Clipboard.Download | native/freerdp-helper/src/cliprdr_file.c:997-1056 | A new download cancels the old one and starts with the first file. |
| CliprdrFile.Clipboard.ServerHasFiles | native/freerdp-helper/src/cliprdr_file.c:897-915 | New clipboard contents cancel the download and forget the file list. |
| CliprdrFile.Clipboard.ServerOffersFiles | native/freerdp-helper/src/cliprdr.c:233-241 | An offer of files awaits their list, and cancels the download and empties the list there was. |
| CliprdrFile.Clipboard.FormatDataResponse | native/freerdp-helper/src/cliprdr.c:324-350 | Only awaited data become the file list, and only once; a refusal ends the waiting. |
| DownloadRuns.StepKeeps | native/freerdp-helper/src/cliprdr_file.c:285-1056 | Every step keeps the invariant of queue, pending requests, temp files and events. |
| DownloadRuns.FilesAreTheirSources | native/freerdp-helper/src/cliprdr_file.c:681-791 | Over every run the stream of each temp file accepted exactly what was received of its source, through short replies and short writes. What is reported done is a directory with size 0, or a source accepted in full, with its size; that source is on the disk iff an empty file's open, or any other file's flush and close, succeeded (or failed with nothing lost). |
| DownloadRuns.ListsStayDuringDownloads | native/freerdp-helper/src/cliprdr.c:324-350 | No format data that arrive while a download exists change its file list: only the first data after an offer of files are taken for a list, and the offer cancelled the download. |
| DownloadRuns.OneFinalEventEach | native/freerdp-helper/src/cliprdr_file.c:340-378 | Each file gets at most one done or error event, and exactly one when the queue is through. |
| DownloadRuns.OneLiveRequest | native/freerdp-helper/src/cliprdr_file.c:631-644 | At most one request is live; its answer is for the current file of the current download and fills what that file lacks: its size, eight bytes from 0, or the range behind what it has, up to 262144 bytes. |
| DownloadRuns.StaleAnswersChangeNothing | native/freerdp-helper/src/cliprdr_file.c:631-644 | An answer to a request of a cancelled download changes nothing. |
| DownloadRuns.AnswersAreReported | native/freerdp-helper/src/cliprdr_file.c:646-804 | The events the answer to a live request gives: an error for a failure or a file that does not open, how much of the file there is after each range, and its end iff that is all of it. |
| DownloadProgress.UsefulAnswersAdvance | native/freerdp-helper/src/cliprdr_file.c:646-804 | Every failure, size or written byte brings the queue closer to its end: fewer files, then a known size, then fewer bytes. |
| DownloadProgress.FirstRangeIsEmptyExactly | native/freerdp-helper/src/cliprdr_file.c:381-382 | The first range asked for is as long as the last 32 bits of the size, up to 262144, and so empty iff the size is a multiple of 2^32. |
| DownloadProgress.EmptyRequestStops | native/freerdp-helper/src/cliprdr_file.c:735-735 | The answer to an empty request changes nothing and no other can be taken. |
| DownloadProgress.NoAnswersMoveTheQueue | native/freerdp-helper/src/cliprdr_file.c:626-644 | Once the live request asks for nothing, no sequence of answers short of a failure changes the state. |
| DownloadProgress.AHugeFileStopsTheQueue | native/freerdp-helper/src/cliprdr_file.c:381-390 | A concrete run from the start for every such file: after its size arrived no answers move the queue. |
| DownloadProgress.AnEmptyFileCanBeMissing | native/freerdp-helper/src/cliprdr_file.c:682-706 | A concrete run in which an empty file is reported done though its temp file could not be opened. |
| DownloadProgress.AFileCanBeCutShort | native/freerdp-helper/src/cliprdr_file.c:753-786 | A concrete run in which a file is reported done though its last bytes never reached the disk. |
| DownloadProgress.AFairServerExists | native/freerdp-helper/src/cliprdr_file.c:636-676 | The premise of these results can be met: the size, or the whole range, is always a fair answer. |
| DownloadProgress.DownloadsComeThrough | native/freerdp-helper/src/cliprdr_file.c:320-804 | With a fair server, a disk that keeps what it is given and an accepting channel the download ends, with every file to be fetched on the disk, iff none of them has a size that is a positive multiple of 2^32, as long as stream ids last; otherwise it stands still. |
| DownloadProgress.DownloadBegins | native/freerdp-helper/src/cliprdr_file.c:997-1056 | From any reachable state an accepted download starts without an error, by asking for something, at its end, or stopped by a huge file. |
| DownloadProgress.SurroundingsFollow | native/freerdp-helper/src/cliprdr.c:233-350 | Over every run the file list is the one last delivered while one was awaited since the last offer, flags and all, and whether one is awaited and whether there is a channel is told from the events alone. |
| DownloadProgress.EveryDownloadComesThrough | native/freerdp-helper/src/cliprdr_file.c:320-1056 | The two together, from the start: whatever happened before, a download of the list last delivered that is asked for and fairly answered ends with every file on the disk, iff no file to be fetched has a size that is a positive multiple of 2^32. |
| ClipboardLocks.RequestsCarryTheLock | native/freerdp-helper/src/cliprdr_file.c:300-301 | Over every run each request carries the lock of the latest offer exactly if since that offer no queue has ended on a connected channel and the channel was not lost, and none otherwise; told from the steps alone. |
| ClipboardLocks.StepSends | native/freerdp-helper/src/cliprdr_file.c:285-938 | Every PDU of every run: requests go out as the queue asks for them, an offer makes the event thread give back the lock held and take the next, numbered from 100, and the end of a queue makes its thread give back the lock, each once and in order. |
| ClipboardLocks.RequestsNameHeldLocks | native/freerdp-helper/src/cliprdr_file.c:285-314 | However the event and command threads interleave, a request names no lock or one whose Lock PDU is sent and whose Unlock is not. |
| ClipboardLocks.LocksAreReleasedOnce | native/freerdp-helper/src/cliprdr_file.c:494-502 | No lock is given back twice, or before it was taken. |
| ClipboardLocks.StepKeeps | native/freerdp-helper/src/cliprdr_file.c:897-938 | Every step of either thread, PDUs sent outside the mutex included, keeps the lock invariant. |
| Lifecycle.SlotStaysEmpty | src/session.rs:301-307 | Once a shutdown took a session's worker slot it stays empty, under every interleaving with connect. |
| Lifecycle.LateWorkersAreDropped | src/session.rs:124-141 | A worker started after that is dropped as soon as connect looks at the session. |
| Lifecycle.NothingRegisteredAfterShutDown | src/session.rs:404-412 | No session is registered once the manager was shut down. |
| Lifecycle.NoWorkerIsLost | src/session.rs:390-452 | When a session's threads are through, its worker was reaped or stands in the slot of a registered session. |
| Lifecycle.ShutDownReapsAll | src/session.rs:437-452 | After the manager's shutdown, when all threads are through, every worker was reaped. |
| Lifecycle.StepsTell | src/session.rs:124-452 | Over every run a session is opened iff connect was answered well, has failed iff there was no worker, no good answer or a session lost already, has a worker in its slot from storing it until a shutdown takes it, and is registered from its registration with an open manager until it is closed, given up or shut down. |
| Lifecycle.OpenSucceeds | src/session.rs:391-452 | An open that nothing disturbs ends opened, with its worker in the slot, registered. |
| Lifecycle.StepKeeps | src/session.rs:124-452 | Every step of open, connect, close, shutdown and the worker's own end keeps the invariant of custody. |
| DisplayControl.ResizesCoalesce | native/freerdp-helper/src/disp.c:194-253 | Over every run all sizes sent are even and within 200..8192, those not caused by capabilities come at least 200 ms after the one before, and while the channel refuses none what waits or went out last stands for the latest size asked for: each side the largest even size within the limits not above it, with its scale factors. |
| DisplayControl.StepSends | native/freerdp-helper/src/disp.c:101-253 | What every step sends, told by the layouts as they were asked for: a request goes out at once or waits in the place of the one before, a poll and capabilities send what waits, and the first capabilities, when nothing waits, the initial layout; each side is the largest even size within 200..8192 not above the one asked for, and both scale factors are kept. |
| DisplayControl.ReadyFollows | native/freerdp-helper/src/disp.c:157-180 | The channel and its readiness follow connects, losses and capabilities. |
| DisplayControl.LatestWinsUnlessRefused | native/freerdp-helper/src/disp.c:65-97 | The latest size wins after a step iff the channel did not refuse it in that step. |
| DisplayControl.AskingWinsUnlessRefused | native/freerdp-helper/src/disp.c:194-229 | Whatever was refused before, after a request the latest size is pending or the last one sent iff the channel did not refuse it in that step. |
| DisplayControl.LatestWinsSinceLastAsk | native/freerdp-helper/src/disp.c:194-253 | So refusals count only since the last request, over every run. |
| DisplayControl.ARefusedSizeIsLost | native/freerdp-helper/src/disp.c:249-251 | A concrete run in which a refused size is forgotten. |
| DisplayControl.PollSendsTheLatest | native/freerdp-helper/src/disp.c:231-253 | Once the rate limit has passed, a poll sends the latest size. |
| DisplayControl.ClampEvenIsNearest | native/freerdp-helper/src/disp.c:54-58 | The size sent is the largest even one within the limits not above the one asked for. |
| DisplayControl.Display.RequestResize | native/freerdp-helper/src/disp.c:194-229 | In place: queued while the channel is not ready or too soon, else sent. |
| DisplayControl.Display.Check | native/freerdp-helper/src/disp.c:231-253 | In place: a pending size is sent when it may be. |
| DisplayControl.Display.OnCaps | native/freerdp-helper/src/disp.c:101-133 | In place: capabilities send the pending size, or the initial layout. |

## Left out

- Rounding of doubles, `%1.15g`/`%1.17g` printing and NaN: numbers are printed when they are 32-bit integers, and read exactly.
- Failing allocations, custom hooks other than a missing `reallocate`, the error position, references, raw values, and case-insensitive lookup in cJSON.
- JsonReads.StringReads: bytes from 128 on are kept as they are, whether they are UTF-8 or not.
- JsonPrinter.PrintBuffer.PrintNumber: requires a 32-bit integer.
- JsonPrinter.PrintBuffer.PrintValue: requires a printable tree, so numbers printed with a fraction are not part of it.
- JsonPrinter.PrintBuffer.PrintArray: requires printable items, as PrintValue does.
- JsonPrinter.PrintBuffer.PrintObject: requires printable members, as PrintValue does.
- JsonPrinter.Print: requires a printable tree, as PrintValue does.
- JsonPrinter.PrintPreallocated: requires a printable tree, as PrintValue does.
- JsonParser.ParseBuffer.ParseNumber: the number stored is the exact value of the numeral, not the double next to it; valueint is a function of it.
- JsonTreeOps.CompareNodes: overlapping trees with a repeated, contradicting key, or with a number that is not a 32-bit integer, are left out.
- JsonList.ReplaceItemViaPointer: that the item cut loose is then freed is not modelled, as no release of memory is.
- Connection.Gdi.DesktopResize: the state and the message are stated at the end of the call, not the order in which they come about.
- SessionCallbacks.CallbackState.HandleNativeOutput: JSON payloads are read as under SerdeJson.DimensionsArrive.
- cJSON_Minify, which is not used here; cJSON_AddItemToObject and the create functions, which only combine the above.
- SerdeJson.DimensionsArrive: serde_json is represented by the reading function of the JSON model with nothing but blanks allowed around the value, so inputs on which serde_json is stricter, or keeps a number as a float, are not told apart; what is proved concerns texts the project itself writes.
- Supervisor.WorkerEndIsReported: error texts without zero bytes; serde_json's writer is represented by the printer, which escapes alike.
- JPEG and PNG encoding: an arbitrary function of the RGB pixels and the size in 16 bits.
- Connection.Gdi.EndPaint: the dirty rectangle's coordinates are unbounded integers, so INT32 overflow in the clipping of absurd rectangles is not modelled; nor is a failed allocation of the pixel buffer, which drops the paint silently (connection.c:206-207), so the results on the pipeline take it for granted.
- Pipeline.DesktopArrives: desktops with sides below 2^16 and bitmap messages within the stream's payload limit; a larger one ends the worker.
- A viewer's cancellation and its 100 ms pace: a run of pulls may end anywhere.
- Frame counters and log lines of cb_end_paint, pointer shapes and clipboard messages on the same stream: the session ignores them.
- Session.VersionNamesFrame: the version is unbounded; the wrap of a 64-bit counter is not modelled.
- Waiting on the condition variable, its timeouts, screenshots' waiting loops, and input commands of sessions.
- DownloadRuns.StepKeeps: stream ids that wrap around within one run are excluded, as are servers that answer a request twice.
- Temp paths: each file of a download is given a temp file of its own, so names that come to one path after sanitizing, and older files at a path that cannot be opened, are not modelled.
- Progress JSON, and placing the downloaded files on the native clipboard.
- The local-to-remote half of cliprdr_file.c and the locks the server takes on local data.
- ClipboardLocks.RequestsNameHeldLocks: lock ids do not wrap around, and a Lock PDU the channel refuses counts as sent, as in the code.
- Lifecycle.NoWorkerIsLost: a session dropped without ever being registered, and the process-level reaping inside WorkerProcess::shutdown, are one step or none.
- DisplayControl.ResizesCoalesce: the initial layout is stored before the first capabilities, and capabilities come on a connected channel.
- `cliprdr_win32.c`, the text half of `cliprdr.c` (of which only the routing of file lists is modelled), `keyboard.rs`, `cli.rs`, `server.rs`, `library.c`, `main.c`: tables, argument handling and dispatch.

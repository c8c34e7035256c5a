# iperf engine and report pipeline: a Dafny model

The native half of the app is the iperf3 engine and the UTF-8 library that its reports pass through.
This project models its five cores and proves what they promise.

- **JSON** (`JsonTree`, `JsonParse`, `JsonParser`, `JsonRoundTrip`, `JsonReparse`, `JsonNumbers`, `JsonStrings`,
  `JsonSyntax`, `JsonUnicode`, `JsonPrinter`, `JsonMinify`, `ChildList`, `Duplication`). The recursive-descent
  parser and the printer exist twice: as functions on text, and as the cursor, buffer and array code that the
  library runs, proved against those functions. Printing and parsing undo each other exactly within the nesting
  limit, and the parser accepts exactly the texts of a grammar (`JsonSyntax`), with the numbers and strings of
  sections 6 and 7 of RFC 8259.
- **UTF-8 and UTF-16** (`MachineBits`, `Utf8Core`, `Utf8Checked`, `Utf8Pieces`, `Utf8Stepping`, `Utf16`).
  Validation is proved equal to the grammar of section 4 of RFC 3629, the repair function is characterised piece
  by piece for every input, and the conversions are mutually inverse. `JsonUnicode` shows that the JSON escape
  decoder and `utf16to8` agree on every input.
- **The report** (`Report`, `Framing`). What the app does to a report (print, delete newlines and tabs, repair,
  hand to Java) loses nothing but octets that were not UTF-8.
- **Timers** (`IperfTime`, `TimerSchedule`, `TimerQueue`). A sorted doubly linked list that a run re-sorts while
  walking it, compared with the schedule of all deadlines.
- **Control protocol** (`Streams`, `ControlProtocol`). Client and server as one transition system over two FIFO
  channels and an accept queue. A run is any sequence of enabled actions: handlers, blocking reads, stream
  set-up, traffic on either side, and strangers connecting.
- **Sending and statistics** (`Udp`, `Accounting`, `Sending`). Packet loss counted in constant space, byte and
  packet accounting per interval, pacing, and block limits. The socket's answers, the clock and the ready sets
  are arbitrary.

`Bytes` and `Sequences` hold shared notions. `dafny verify dfyconfig.toml` checks everything.

Findings the model makes precise:

- Stream ids run 1, 3, 4, 5, ...: the second stream skips 2, on both sides alike (`Streams.AddStream`).
- `cJSON_PrintPreallocated` needs two spare bytes (one for a bare number), not the five its header asks for
  (`JsonPrinter.PrintPreallocated`).
- A duplicated UDP packet can hide a loss. The counter is exact if and only if the repeats equal the most that
  arrivals have ever outnumbered the highest number seen (`Udp.LossExactly`, `Udp.RepeatsHideLosses`).
- The omit reset closes the byte interval but not the packet interval, so UDP packets between the last omitted
  row and the reset are reported in the first row that counts (`Accounting.RowsAgreeWithSummary`,
  `Accounting.OmittedPacketIsReported`).
- `tmr_run` can leave a timer due: one that is re-inserted before the next timer is behind the walk and does not
  fire again. This happens if and only if some timer comes twice in a row among all deadlines up to now
  (`TimerQueue.Queue.Run`, `TimerSchedule.CleanWalks`, `TimerQueue.LateTimerStaysDue`).
- `cJSON_Minify` reads past the terminator if and only if the text ends inside a block comment or a string literal
  (`JsonMinify.RunMinify`, `JsonMinify.MinifyOverruns`).
- A stranger that connects while streams are set up and sends no cookie stops the server. A test can be completed
  if and only if no such stranger is ahead of a data connection (`ControlProtocol.CompletableUnlessBlocked`).

## Model

| member | source | states |
|---|---|---|
| Utf8Core.ValidateNextIsRfc3629 | app/src/main/cpp/util/utf8/core.h:92-263 | the decoder accepts exactly the octet sequences of the grammar in section 4 of RFC 3629, and consumes exactly one such character |
| Utf8Core.EncodeInvertsValidateNext | app/src/main/cpp/util/utf8/core.h:216-263 | whatever was decoded, encoding the code point again gives the consumed octets |
| Utf8Core.ValidateNextInvertsEncode | app/src/main/cpp/util/utf8/checked.h:77-98 | for every valid code point, decoding its encoding gives it back, whatever text follows |
| Utf8Core.OnlyTrailsFollow | app/src/main/cpp/util/utf8/core.h:148-214 | an accepted character is one non-trail octet followed by trail octets only |
| MachineBits.ShiftsAreQuotients | app/src/main/cpp/util/utf8/checked.h:82-95 | the shifts of the encoder and decoder are the quotients the model uses |
| MachineBits.ShiftsAreProducts | app/src/main/cpp/util/utf8/core.h:158-214 | the left shifts of the decoder are the products the model uses |
| MachineBits.SurrogateHalvesAreDisjoint | app/src/main/cpp/iperf/cjson.c:508-508 | shifting one surrogate half up and or-ing in the other is a sum |
| MachineBits.MasksAreRemainders | app/src/main/cpp/util/utf8/core.h:158-214 | the masks are remainders |
| MachineBits.MarksAreSums | app/src/main/cpp/util/utf8/checked.h:82-95 | or-ing a marker bit pattern into cleared bits is addition |
| Utf8Checked.FindInvalid | app/src/main/cpp/util/utf8/core.h:278-292 | the returned position ends the longest well-formed prefix; it is the end exactly when the whole text is well formed |
| Utf8Checked.RunReplaceInvalid | app/src/main/cpp/util/utf8/checked.h:100-136 | the octet-by-octet loop computes the repair function, exceptions included |
| Utf8Checked.ReplaceInvalidExactly | app/src/main/cpp/util/utf8/checked.h:100-129 | the repair throws exactly when the text stops inside a character, and otherwise returns the mended text |
| Utf8Pieces.RepairMarksBadPieces | app/src/main/cpp/util/utf8/checked.h:100-129 | unless the text stops inside a character, the result is the one cut of the text into RFC 3629 characters and bad pieces with exactly one mark in place of every bad piece; its length counts the marks |
| Utf8Pieces.MendMarksBadPieces | app/src/main/cpp/util/utf8/checked.h:105-127 | characters stay as they are and every bad piece, an octet that starts no character with the trail octets after an announcing one, becomes one mark |
| Utf8Pieces.CutIsUnique | app/src/main/cpp/util/utf8/checked.h:105-127 | a text can be cut into characters and bad pieces in one way only |
| Utf8Checked.MendedIsText | app/src/main/cpp/util/utf8/checked.h:100-129 | the mended text is well-formed UTF-8 for every input |
| Utf8Checked.MendKeepsText | app/src/main/cpp/util/utf8/checked.h:105-111 | well-formed text is returned unchanged and never throws |
| Utf8Checked.ReplaceInvalidIsIdempotent | app/src/main/cpp/util/utf8/checked.h:100-129 | a repaired text is well formed and a second repair changes nothing |
| Utf8Checked.MendKeepsAscii | app/src/main/cpp/util/utf8/checked.h:112-127 | with a mark outside ASCII the subsequence of ASCII octets is kept exactly |
| Utf8Checked.MendSplitsAtAscii | app/src/main/cpp/util/utf8/checked.h:112-127 | text before and after an ASCII octet is repaired independently, so the repair never swallows structure |
| Utf8Stepping.RunPrior | app/src/main/cpp/util/utf8/checked.h:162-174 | the backward loop finds the nearest non-trail octet, or throws at the start of the text |
| Utf8Stepping.UncheckedPrior | app/src/main/cpp/util/utf8/unchecked.h:92-96 | the unchecked step back lands on the nearest lead octet and decodes there |
| Utf8Stepping.UncheckedNextAgrees | app/src/main/cpp/util/utf8/unchecked.h:55-84 | wherever the checked step succeeds, the unchecked one gives the same code point and position |
| Utf8Stepping.PriorUndoesNext | app/src/main/cpp/util/utf8/checked.h:138-174 | stepping back after stepping forward returns to the same position and code point, however far back it may look |
| Utf8Stepping.UncheckedPriorAgrees | app/src/main/cpp/util/utf8/unchecked.h:92-96 | the unchecked step back undoes a forward step as well |
| Utf16.PairRoundTrip | app/src/main/cpp/util/utf8/core.h:46-52 | splitting a supplementary code point into surrogates and joining them modulo 2^32 is the identity |
| Utf16.PairFromSurrogates | app/src/main/cpp/util/utf8/core.h:46-52 | joining any surrogate pair gives a supplementary code point that splits into the same pair, although the offset constant wraps |
| Utf16.Utf8RoundTrip | app/src/main/cpp/util/utf8/checked.h:227-238 | conversion to UTF-16 succeeds exactly on well-formed UTF-8; its result is well-formed UTF-16 and converts back to the same octets |
| Utf16.Utf16RoundTrip | app/src/main/cpp/util/utf8/checked.h:202-225 | conversion to UTF-8 succeeds exactly on well-formed UTF-16 (section 2.2 of RFC 2781); its result is well-formed UTF-8 and converts back |
| Utf16.RunUtf8To16 | app/src/main/cpp/util/utf8/checked.h:227-238 | the loop computes the conversion, exceptions included |
| Utf16.RunUtf16To8 | app/src/main/cpp/util/utf8/checked.h:202-225 | the loop computes the conversion, exceptions included |
| Utf16.UncheckedUtf16To8 | app/src/main/cpp/util/utf8/unchecked.h:119-132 | on well-formed input the unchecked loop gives the checked result |
| Utf16.UncheckedUtf8To16 | app/src/main/cpp/util/utf8/unchecked.h:134-144 | on well-formed input the unchecked loop gives the checked result |
| JsonParse.ParseString | app/src/main/cpp/iperf/cjson.c:559-673 | a string literal that is accepted consumes at least one byte, leaves the terminator in place and yields text without NUL |
| JsonParse.ParseValue | app/src/main/cpp/iperf/cjson.c:1003-1052 | every success strictly shortens the text that is left and never runs past the terminator, on every input |
| JsonParse.Utf16Literal | app/src/main/cpp/iperf/cjson.c:458-556 | an accepted escape is six or twelve bytes inside the literal and stands for a valid code point |
| JsonNumbers.NumberTextIsDecimal | app/src/main/cpp/iperf/cjson.c:209-253 | the number texts of the model are exactly the decimal numbers, with optional sign, fraction and exponent in e or E, of up to 63 bytes that start with a minus or a digit |
| JsonNumbers.JsonNumberIsRead | app/src/main/cpp/iperf/cjson.c:209-253 | every number of section 6 of RFC 8259 of up to 63 bytes is read whole before any byte that cannot belong to a number |
| JsonNumbers.ReadIsDecimal | app/src/main/cpp/iperf/cjson.c:251-256 | whatever the number reader takes is a decimal number |
| JsonNumbers.SpelledIsTaken | app/src/main/cpp/iperf/cjson.c:253-256 | strtod takes a decimal number whole |
| JsonStrings.StringIsRead | app/src/main/cpp/iperf/cjson.c:559-673 | every string of section 7 of RFC 8259, with all its escapes in either case, is read as what it stands for, and fails exactly on a lone surrogate |
| JsonStrings.CharsAreRead | app/src/main/cpp/iperf/cjson.c:601-650 | the second pass gives the meaning of the characters it reads |
| JsonStrings.ShortReads | app/src/main/cpp/iperf/cjson.c:612-634 | the two-character escapes are exactly the eight of section 7, each for its octet |
| JsonStrings.PrintedIsJson | app/src/main/cpp/iperf/cjson.c:737-775 | what the printer writes between quotes is a string of section 7 that stands for the text, without raw control characters |
| JsonSyntax.ReadIsSyntax | app/src/main/cpp/iperf/cjson.c:1003-1346 | nothing but a text of the grammar is read: values, blanks, commas, colons and brackets in their places, with the tree they spell |
| JsonSyntax.SyntaxIsRead | app/src/main/cpp/iperf/cjson.c:1003-1346 | every text of the grammar, with any blanks in any place, is read as its tree exactly within the nesting limit |
| JsonSyntax.AcceptedIsSyntax | app/src/main/cpp/iperf/cjson.c:820-891 | an accepted document is blanks, a text of the grammar nested at most 1000 deep, and the rest, which is blank if the end is checked |
| JsonSyntax.SyntaxIsAccepted | app/src/main/cpp/iperf/cjson.c:820-891 | every such document is accepted exactly within the nesting limit |
| JsonSyntax.SkipIsLongest | app/src/main/cpp/iperf/cjson.c:803-817 | what is skipped is the longest run of bytes up to 32 in front of the last byte |
| JsonStringParser.ScanLiteral | app/src/main/cpp/iperf/cjson.c:571-589 | the first pass finds the closing quote and counts the escapes on the way |
| JsonStringParser.StepFits | app/src/main/cpp/iperf/cjson.c:571-653 | one step of the second pass writes no more than the first pass set aside for the bytes it consumes, even when the passes disagree on where escapes start |
| JsonStringParser.SkippedGrowth | app/src/main/cpp/iperf/cjson.c:574-586 | at most every other byte of a literal starts an escape |
| JsonStringParser.SkippedLast | app/src/main/cpp/iperf/cjson.c:574-586 | no escape starts on the last byte of a literal |
| JsonStringParser.RoomGrows | app/src/main/cpp/iperf/cjson.c:592-598 | what is set aside never exceeds the allocated size |
| JsonStringParser.DecodeLiteral | app/src/main/cpp/iperf/cjson.c:601-653 | the second pass stays inside an array of the estimated size, leaves room for the NUL and writes the decoded literal |
| JsonStringParser.WriteCodePoint | app/src/main/cpp/iperf/cjson.c:514-548 | the shifting loop writes the octets that the UTF-8 library's `append` would write |
| JsonUnicode.EscapesAreUtf16 | app/src/main/cpp/iperf/cjson.c:458-556 | for every sequence of code units, well formed or not, decoding their escapes gives what `utf16to8` writes and fails exactly where it throws |
| JsonUnicode.UnitReadsBack | app/src/main/cpp/iperf/cjson.c:430-455 | four hexadecimal digits of a code unit are read back as that unit |
| JsonUnicode.SamePair | app/src/main/cpp/iperf/cjson.c:508-511 | both libraries compute the same code point from a surrogate pair |
| JsonParser.ParseBuffer.SkipBlanks | app/src/main/cpp/iperf/cjson.c:803-817 | the cursor moves over every byte up to 32 but never past the last byte |
| JsonParser.ParseBuffer.ReadString | app/src/main/cpp/iperf/cjson.c:559-673 | scan, allocation by the estimate and decoding refine the string function; the cursor ends where it says |
| JsonParser.ParseBuffer.ReadNumber | app/src/main/cpp/iperf/cjson.c:209-273 | the number reader refines the number function |
| JsonParser.ParseBuffer.ReadArray | app/src/main/cpp/iperf/cjson.c:1123-1200 | the array loop refines the recursive function, restores the depth and stays inside the buffer |
| JsonParser.ParseBuffer.ReadObject | app/src/main/cpp/iperf/cjson.c:1256-1346 | the object loop refines the recursive function, restores the depth and stays inside the buffer |
| JsonParser.ParseBuffer.ReadValue | app/src/main/cpp/iperf/cjson.c:1003-1052 | the mutually recursive readers terminate on every input and agree with the recursive function |
| JsonParser.RunParse | app/src/main/cpp/iperf/cjson.c:820-891 | parsing with a cursor over the C string gives the result of the recursive function, with or without the end-of-text check |
| JsonReparse.ReparseIsStable | app/src/main/cpp/iperf/cjson.c:1003-1346 | whatever text is accepted, its tree nests at most 1000 deep, and its text in any layout parses to the same tree again |
| JsonReparse.StrtodOfPrefix | app/src/main/cpp/iperf/cjson.c:216-262 | the part of a number that is taken is a whole number again |
| JsonRoundTrip.StringRoundTrip | app/src/main/cpp/iperf/cjson.c:676-782 | a printed string parses back to itself, whatever follows |
| JsonRoundTrip.NumberRoundTrip | app/src/main/cpp/iperf/cjson.c:209-273 | a printed number parses back to the same text when a delimiter follows |
| JsonRoundTrip.ValueRoundTrip | app/src/main/cpp/iperf/cjson.c:1055-1442 | a printed value inside any context parses back, or fails, as its nesting decides |
| JsonRoundTrip.PrintParseRoundTrip | app/src/main/cpp/iperf/cjson.h:134-136 | parsing the printed text, in every layout, gives the tree back exactly when it nests at most 1000 deep and fails otherwise |
| JsonRoundTrip.TextIsNulFree | app/src/main/cpp/iperf/cjson.c:676-782 | printed text contains no NUL, so it is read as a whole |
| JsonTree.LayoutOfAnObject | app/src/main/cpp/iperf/cjson.c:1349-1442 | the bytes of an object in both layouts: a line and a tab for each member, a tab behind the colon, or nothing of the kind |
| JsonTree.LayoutOfAnArray | app/src/main/cpp/iperf/cjson.c:1203-1253 | the bytes of an array in both layouts: a blank behind the comma, or none |
| JsonPrinter.PrintBuffer.Ensure | app/src/main/cpp/iperf/cjson.c:299-360 | room is granted exactly when the limit allows it, and growing keeps what was printed |
| JsonPrinter.PrintBuffer.UpdateOffset | app/src/main/cpp/iperf/cjson.c:363-371 | the offset moves to the terminator of what was printed |
| JsonPrinter.PrintBuffer.PrintString | app/src/main/cpp/iperf/cjson.c:676-782 | exactly the escaped literal is appended; it succeeds exactly when the literal, its NUL and one more byte fit |
| JsonPrinter.PrintBuffer.PrintNumber | app/src/main/cpp/iperf/cjson.c:374-427 | exactly the number is appended; it succeeds exactly when the number fits its 26-byte buffer and, with its NUL, the room that is left |
| JsonPrinter.PrintBuffer.PrintValue | app/src/main/cpp/iperf/cjson.c:1055-1120 | exactly the text of the value is appended, or it fails, exactly as the room decides |
| JsonPrinter.PrintBuffer.PrintArray | app/src/main/cpp/iperf/cjson.c:1203-1253 | the array loop appends the text function's text within what was granted |
| JsonPrinter.PrintBuffer.PrintObject | app/src/main/cpp/iperf/cjson.c:1349-1442 | the object loop appends the text function's text within what was granted |
| JsonPrinter.PrintPreallocated | app/src/main/cpp/iperf/cjson.c:985-1000 | succeeds exactly when the length is at least the text plus two bytes (one for a bare number), and then the array holds the text and a NUL |
| JsonPrinter.Print | app/src/main/cpp/iperf/cjson.c:895-957 | the growing printer returns exactly the text function's text |
| JsonPrinter.PrintBuffered | app/src/main/cpp/iperf/cjson.c:959-982 | the same from a buffer of the caller's size, for every size that is not negative |
| JsonPrinter.CountEscapes | app/src/main/cpp/iperf/cjson.c:699-723 | the extra bytes counted are exactly those that escaping adds |
| JsonMinify.RunMinify | app/src/main/cpp/iperf/cjson.c:2016-2057 | on every C string, byte by byte: the loop reads past the terminator if and only if a block comment or a literal is left open; otherwise it leaves the minified text and its NUL in the array |
| JsonMinify.SkipLine | app/src/main/cpp/iperf/cjson.c:2029-2033 | the loop over a line comment stops at its newline or at the terminator |
| JsonMinify.SkipComment | app/src/main/cpp/iperf/cjson.c:2034-2039 | the loop over a block comment ends behind its closing mark, or two bytes past the terminator if there is none |
| JsonMinify.CopyLiteral | app/src/main/cpp/iperf/cjson.c:2040-2049 | the loop over a literal moves it down unchanged and ends behind its closing quote, or past the terminator if there is none |
| JsonMinify.MinifiedUnlessUnclosed | app/src/main/cpp/iperf/cjson.c:2016-2057 | a minified text exists exactly when a reader of the text does not end inside a block comment or a literal |
| JsonMinify.MinifiedIsKept | app/src/main/cpp/iperf/cjson.c:2016-2057 | of every closed text exactly the blanks in code and the comments are dropped; literals and all other bytes stay in order |
| JsonMinify.MinifyOverruns | app/src/main/cpp/iperf/cjson.c:2034-2049 | a lone quote, a lone comment opening and an escape at the end are texts on which the loop overruns |
| JsonMinify.MinifyText | app/src/main/cpp/iperf/cjson.c:2016-2057 | minifying printed text in any blank layout, in any context, gives the unformatted print |
| JsonMinify.MinifyFormatted | app/src/main/cpp/iperf/cjson.c:1203-1253 | minifying the formatted print of any tree equals its unformatted print |
| JsonMinify.Erase | app/src/main/cpp/src/IperfTest.cpp:98-100 | removing one byte value in place keeps all others in order |
| JsonMinify.StrippedText | app/src/main/cpp/src/IperfTest.cpp:98-100 | deleting newlines and tabs from the formatted print removes layout only: no string or key loses a byte |
| JsonMinify.StrippedReportParses | app/src/main/cpp/src/IperfTest.cpp:91-104 | the stripped report parses to the same tree exactly within the nesting limit |
| Report.MendCommutesWithEscape | app/src/main/cpp/util/utf8/checked.h:100-129 | repairing an escaped string is escaping the repaired string |
| Report.MendText | app/src/main/cpp/src/iperfJava.cpp:87-93 | repairing printed text is printing the tree with its strings and keys repaired |
| Report.MendedIsPrintable | app/src/main/cpp/src/iperfJava.cpp:87-93 | repairing strings keeps a tree printable and its nesting unchanged |
| Report.Utf8TreeIsKept | app/src/main/cpp/src/iperfJava.cpp:87-93 | a tree whose strings are UTF-8 is not changed |
| Report.ReportSurvives | app/src/main/cpp/src/iperfJava.cpp:87-93 | print, strip and repair never throw on a report; what reaches Java is well-formed UTF-8 and parses to the tree with its strings repaired, exactly within the nesting limit |
| Framing.BigEndianRoundTrip | app/src/main/cpp/iperf/iperf_api.c:2064-2068 | the length prefix is read back as written |
| Framing.WordsAreInNetworkOrder | app/src/main/cpp/iperf/iperf_api.c:2057-2117 | words are written and read with the most significant octet first |
| Framing.FrameOnTheWire | app/src/main/cpp/iperf/iperf_api.c:2057-2079 | a frame is the length of the unformatted text in network order and that text |
| Framing.JsonExchange | app/src/main/cpp/iperf/iperf_api.c:2057-2117 | a framed message is taken off the connection whole and is the tree that was written, exactly within the nesting limit |
| Framing.FramesKeepApart | app/src/main/cpp/iperf/iperf_api.c:2057-2117 | any number of queued messages is read back in order and unmixed |
| ChildList.GetArraySize | app/src/main/cpp/iperf/cjson.c:1445-1456 | counts the children |
| ChildList.GetArrayItem | app/src/main/cpp/iperf/cjson.c:1458-1480 | the child at an index, or null outside the list |
| ChildList.GetObjectItem | app/src/main/cpp/iperf/cjson.c:1482-1508 | the first child whose key matches in either case, and none before it |
| ChildList.MatchIsCaseBlind | app/src/main/cpp/iperf/cjson.c:85-99 | a key matches a name exactly when they are equally long and agree letter by letter but for case |
| ChildList.AddItemToArray | app/src/main/cpp/iperf/cjson.c:1539-1558 | appends to the children and keeps next and prev consistent |
| ChildList.Detach | app/src/main/cpp/iperf/cjson.c:1601-1624 | removes one child, bridges the gap both ways and leaves the item linked to nothing |
| ChildList.DetachItemFromArray | app/src/main/cpp/iperf/cjson.c:1626-1632 | the same by index, with no effect outside the list |
| ChildList.DetachItemFromObject | app/src/main/cpp/iperf/cjson.c:1638-1642 | the same by key |
| ChildList.InsertItemInArray | app/src/main/cpp/iperf/cjson.c:1659-1680 | inserts in front of an index, appends past the end, ignores a negative index |
| ChildList.ReplaceItemViaPointer | app/src/main/cpp/iperf/cjson.c:1682-1710 | puts another item in the same place and leaves the old one linked to nothing |
| ChildList.DetachUndoesInsert | app/src/main/cpp/iperf/cjson.c:1601-1680 | insertion and detachment undo each other on the sequence of children |
| Duplication.Duplicate | app/src/main/cpp/iperf/cjson.c:1948-2014 | a recursive copy is a structurally equal tree of distinct nodes that did not exist before, consistently linked, with null next and prev at its root |
| Duplication.Crosswire | app/src/main/cpp/iperf/cjson.c:1988-2001 | linking one more copied child keeps all copied subtrees intact |
| IperfTime.AddIsModular | app/src/main/cpp/iperf/iperf_time.c:71-80 | adding microseconds to a normal time stamp is addition modulo the range of the seconds field and stays normal |
| IperfTime.AddIsExact | app/src/main/cpp/iperf/iperf_time.c:71-80 | the sum is exact if and only if it stays below that range |
| IperfTime.CompareIsOrder | app/src/main/cpp/iperf/iperf_time.c:98-109 | comparison is the order of the stamps in microseconds, equality included |
| IperfTime.DiffIsDistance | app/src/main/cpp/iperf/iperf_time.c:119-149 | the difference is the distance in microseconds and the flag says which stamp is later |
| TimerQueue.Queue.ListAdd | app/src/main/cpp/iperf/timer.c:58-94 | the timer goes in after every timer due no later; the list stays linked both ways and sorted |
| TimerQueue.Queue.FindPlace | app/src/main/cpp/iperf/timer.c:74-92 | the walk stops at the one place that keeps the order |
| TimerQueue.Queue.ListRemove | app/src/main/cpp/iperf/timer.c:97-105 | exactly this timer leaves; the rest stays linked |
| TimerQueue.Queue.Create | app/src/main/cpp/iperf/timer.c:116-145 | a free timer is reused if there is one; it is due one period from now and goes in after every timer due no later |
| TimerQueue.Queue.Cancel | app/src/main/cpp/iperf/timer.c:205-213 | the timer moves from the active list to the head of the free list |
| TimerQueue.Queue.Resort | app/src/main/cpp/iperf/timer.c:107-113 | only this timer moves, to where its deadline belongs |
| TimerQueue.Queue.Reset | app/src/main/cpp/iperf/timer.c:194-202 | the period starts anew and the timer moves after every timer due no later |
| TimerQueue.Queue.Timeout | app/src/main/cpp/iperf/timer.c:148-166 | looking at the head only yields the minimum remaining time over all active timers, clamped at 0 |
| TimerQueue.Queue.Round | app/src/main/cpp/iperf/timer.c:178-190 | after one firing the saved next pointer is still where the walk goes on, everything that lay ahead still does, and less work is left |
| TimerQueue.Queue.Run | app/src/main/cpp/iperf/timer.c:169-191 | terminates; its firings are exactly those of the planned walk, in non-decreasing deadline order; exactly the timers due at entry fire, a one-shot timer once and then it is free, a periodic one moved on by one period per firing; nothing is due at the end if and only if no timer comes twice in a row among all deadlines up to now |
| TimerSchedule.CleanWalks | app/src/main/cpp/iperf/timer.c:169-191 | a walk leaves nothing due behind if and only if no timer comes twice in a row in the schedule, and if and only if it makes every firing of the schedule in that order |
| TimerSchedule.ScheduleIsGrid | app/src/main/cpp/iperf/timer.c:184-188 | the schedule holds exactly the deadlines up to now of every timer, one period after the other |
| TimerSchedule.ScheduleIsOrdered | app/src/main/cpp/iperf/timer.c:58-94 | the schedule is in order of deadlines and holds no deadline of a timer twice |
| TimerSchedule.ShortRunsAreClean | app/src/main/cpp/iperf/timer.c:169-191 | if no periodic timer has two deadlines up to now, the run leaves nothing due |
| TimerSchedule.LoneTimerStaysDue | app/src/main/cpp/iperf/timer.c:176-188 | a lone timer that is several periods late fires once in a walk and stays due |
| TimerQueue.LateTimerStaysDue | app/src/main/cpp/iperf/timer.c:169-191 | the same on a queue: period 1, created at 0, run at 10, fires once and is due at 2 |
| TimerQueue.MoveIsScheduled | app/src/main/cpp/iperf/timer.c:107-113 | re-inserting a timer mid-walk leaves ahead of the walk what the schedule says; the timer is parked behind it exactly when its new deadline is before the next one |
| TimerQueue.PlanIsOrdered | app/src/main/cpp/iperf/timer.c:58-94 | the sorted list gives an ordered plan |
| TimerQueue.Queue.RunStops | app/src/main/cpp/iperf/timer.c:176-182 | when the walk stops nothing that was due at entry is left unfired |
| TimerQueue.InsertedSorted | app/src/main/cpp/iperf/timer.c:58-94 | inserting at the place found keeps the deadlines sorted |
| TimerQueue.WalkAfterMove | app/src/main/cpp/iperf/timer.c:178-188 | re-inserting the current timer before or after the walk position neither skips nor repeats a timer |
| TimerQueue.WorkOfInserted | app/src/main/cpp/iperf/timer.c:185-188 | the overdue time of the list grows by that of the inserted timer, wherever it goes |
| Streams.AddStream | app/src/main/cpp/iperf/iperf_api.c:3843-3860 | the new stream gets the id of its position (1, 3, 4, 5, ...); ids stay pairwise distinct |
| Streams.GetResults | app/src/main/cpp/iperf/iperf_api.c:1955-2022 | the nested loops credit each report to the first stream with its id and fail if one has none |
| Streams.ResultsReachThePeer | app/src/main/cpp/iperf/iperf_api.c:1985-2021 | with paired streams every report lands on the stream at the other end of its connection, and none fails |
| Streams.ExchangeInforms | app/src/main/cpp/iperf/iperf_api.c:1591-1609 | after the exchange a side holds the other's counts and has kept its own |
| ControlProtocol.RunsAreSafe | app/src/main/cpp/iperf/iperf_client_api.c:226-316 | in every run, for any number of streams in any mode, with any traffic and any strangers, whether they send a wrong cookie at once, late or never, both sides and the channels stay in one inductive relation and no handler meets a message it does not know |
| ControlProtocol.StepKeeps | app/src/main/cpp/iperf/iperf_server_api.c:435-659 | every step keeps the relation and moves at most one phase on |
| ControlProtocol.StreamsPairUp | app/src/main/cpp/iperf/iperf_server_api.c:531-570 | the streams a connection joins have the same id and opposite directions in all three modes, and no other stream has that id |
| ControlProtocol.DirectionsFollowMode | app/src/main/cpp/iperf/iperf_client_api.c:249-257 | in normal mode the client sends on every stream and the server on none, in reverse mode the other way round, and in bidirectional mode the client sends on exactly the first half |
| ControlProtocol.ServerTakesOppositeMode | app/src/main/cpp/iperf/iperf_api.c:1738-1743 | once it has the parameters the server receives in a normal test, sends in a reverse one and does both in a bidirectional one |
| ControlProtocol.ParamsTellTheMode | app/src/main/cpp/iperf/iperf_api.c:1641-1645 | the parameters carry the number of streams, reverse exactly if the client receives, and bidirectional exactly in that mode |
| ControlProtocol.FinishedTestsTookTheirCourse | app/src/main/cpp/iperf/iperf_api.h:81-96 | every finished test has taken the client through states 0, 9, 10, 1, 2, 4, 13, 16 and the server, if there are streams, through 15, 9, 10, 2, 13, 14, 16, in this order and leaving none out |
| ControlProtocol.ClientCourse | app/src/main/cpp/iperf/iperf_client_api.c:239-312 | every run takes the client through a stretch of its states in order |
| ControlProtocol.ServerCourse | app/src/main/cpp/iperf/iperf_server_api.c:435-659 | every run of a test with streams takes the server through a stretch of its states in order |
| ControlProtocol.DataIsExpected | app/src/main/cpp/iperf/iperf_server_api.c:449-581 | no data connection of the client is ever refused: the server waits for it and still has use for it |
| ControlProtocol.StrangerTurnedAway | app/src/main/cpp/iperf/iperf_tcp.c:107-136 | a connection with the wrong cookie changes nothing, whenever it comes |
| ControlProtocol.SilentAccepted | app/src/main/cpp/iperf/iperf_tcp.c:121-124 | a connection without a cookie makes the server wait in the blocking read exactly while it sets up streams, and is refused otherwise |
| ControlProtocol.FinishedSidesAgree | app/src/main/cpp/iperf/iperf_server_api.c:175-199 | when both sides are done all streams were set up, nothing is in flight, and each side holds the other's counts for every stream |
| ControlProtocol.OnlyFinishedTestsStop | app/src/main/cpp/iperf/iperf_server_api.c:435-659 | a reachable state has no protocol step left if and only if both sides are done or the server is in the blocking read of a cookie that a stranger withholds while the client waits |
| ControlProtocol.CanFinish | app/src/main/cpp/iperf/iperf_client_api.c:477-560 | from every reachable state that no silent stranger blocks, a bounded run of protocol steps alone leads to both sides being done |
| ControlProtocol.CompletableUnlessBlocked | app/src/main/cpp/iperf/iperf_server_api.c:478-485 | a test can be completed without the help of strangers if and only if no cookie is being waited for and no silent stranger is ahead of a data connection, made or still to be made |
| ControlProtocol.BlockedRunsStay | app/src/main/cpp/iperf/iperf_tcp.c:121-124 | as long as no stranger sends its cookie, no run of any kind completes a blocked test |
| ControlProtocol.OneSilentStrangerBlocks | app/src/main/cpp/iperf/iperf_tcp.c:121-124 | one silent stranger behind the control connection blocks every test that has streams |
| ControlProtocol.StepsAreBounded | app/src/main/cpp/iperf/iperf_client_api.c:477-560 | no livelock: strangers aside, every run has at most a fixed number of protocol steps, however much traffic there is |
| ControlProtocol.AdmitKeepsBooks | app/src/main/cpp/iperf/iperf_server_api.c:531-542 | the next admitted stream gets the direction opposite to the client's and the acceptance counters stay true |
| Udp.HeaderRoundTrip | app/src/main/cpp/iperf/iperf_udp.c:89-110 | the receiver reads the header that was sent; with 32-bit counters exactly up to packet 2^32 - 1 |
| Udp.HeaderOnTheWire | app/src/main/cpp/iperf/iperf_udp.c:201-227 | seconds, microseconds and packet number follow each other in network order, the number in 32 or 64 bits |
| Udp.UdpStream.Receive | app/src/main/cpp/iperf/iperf_udp.c:126-157 | one packet changes the counters as the counting function says |
| Udp.CountIsHighest | app/src/main/cpp/iperf/iperf_udp.c:126-135 | the packet count is the highest number seen |
| Udp.LossIs | app/src/main/cpp/iperf/iperf_udp.c:126-150 | the counter is the highest number less the arrivals, plus the most that arrivals have ever outnumbered the highest number |
| Udp.LossExactly | app/src/main/cpp/iperf/iperf_udp.c:126-150 | for every arrival sequence the counter falls short of the missing packets by repeats less deficit, so it is exact if and only if the deficit accounts for every repeat |
| Udp.DeficitIsRepeats | app/src/main/cpp/iperf/iperf_udp.c:126-150 | the deficit is never negative and never more than the repeats |
| Udp.LossBounds | app/src/main/cpp/iperf/iperf_udp.c:126-150 | for every arrival sequence the loss counter is at most the true number of missing packets and short of it by at most the number of repeated packets |
| Udp.LossIsExact | app/src/main/cpp/iperf/iperf_udp.c:126-150 | without repeats the loss counter is exactly the missing numbers, and highest number = packets + losses |
| Udp.NoRepeats | app/src/main/cpp/iperf/iperf_udp.c:112-124 | there are no repeats exactly when all numbers are positive and distinct |
| Udp.OrderIsIrrelevant | app/src/main/cpp/iperf/iperf_udp.c:126-150 | two deliveries of the same packets in any order give the same packet and loss counts |
| Udp.RepeatsHideLosses | app/src/main/cpp/iperf/iperf_udp.c:115-118 | a concrete delivery in which a duplicate makes the counter too low |
| Udp.OutOfOrderIsLate | app/src/main/cpp/iperf/iperf_udp.c:137-142 | the out-of-order counter counts exactly the packets that arrive after one with a number at least as high |
| Accounting.RecordedBalances | app/src/main/cpp/iperf/iperf_api.c:2608-2679 | closing an interval keeps the balance of bytes between rows, open interval and totals |
| Accounting.RestartedBalances | app/src/main/cpp/iperf/iperf_api.c:2574-2599 | at the end of the omitted start the balance starts over from zero over the rows that count |
| Accounting.ReceiverCounts | app/src/main/cpp/iperf/iperf_udp.c:83-157 | a UDP receiver's counters are those of the sequence-number accounting over all its packets, and its bytes their total size |
| Accounting.SummaryStartsOver | app/src/main/cpp/iperf/iperf_api.c:2583-2585 | packets, losses and reorderings of the summary all start over at the end of the omitted start |
| Accounting.SummaryIsGrowth | app/src/main/cpp/iperf/iperf_api.c:2583-2585 | the summary is what has been counted since then, in all three figures |
| Accounting.RecordedTelescopes | app/src/main/cpp/iperf/iperf_api.c:2661-2676 | per-interval packet, loss and reorder counts add up to the stream counters |
| Accounting.RowsAgreeWithSummary | app/src/main/cpp/iperf/iperf_api.c:3075-3087 | the rows that count agree with the final summary if and only if no packet fell between the last omitted row and the reset; otherwise they differ by exactly those packets |
| Accounting.OmittedPacketIsReported | app/src/main/cpp/iperf/iperf_api.c:2574-2599 | a packet sent before the first omitted row is reported in the rows that count although the summary leaves it out |
| Sending.GreenIsBelowRate | app/src/main/cpp/iperf/iperf_api.c:1346-1364 | the light is green exactly when the bits sent since the fixed start are below rate times elapsed time, rounding notwithstanding |
| Sending.SendAdvances | app/src/main/cpp/iperf/iperf_api.c:1380-1396 | a send moves a green stream at most one block further ahead of its rate |
| Sending.RestartedIsSound | app/src/main/cpp/iperf/iperf_api.c:2574-2599 | the omit reset keeps the pacing invariant: pacing still counts from the fixed start |
| Sending.Test.SendBlock | app/src/main/cpp/iperf/iperf_api.c:1384-1396 | a write changes one stream and the test total together, or nothing but a packet number |
| Sending.Test.Round | app/src/main/cpp/iperf/iperf_api.c:1380-1408 | one round writes one block to every eligible stream, in order, up to the first failed write or reached limit, and to no other; it is active exactly when a block went out and keeps the invariant; with more rounds to come a reached block limit lets at most one more block through |
| Sending.Test.Send | app/src/main/cpp/iperf/iperf_api.c:1366-1418 | a call makes as many rounds as multisend or burst says unless a round wrote nothing or failed for good; it keeps totals and pacing, sends nothing on streams that are not ready senders, re-checks every light after a burst, and from below the block limit ends at most (multisend - 1) + (streams - 1) above it; likewise for bytes |
| Sending.SmoothCall | app/src/main/cpp/iperf/iperf_api.c:1366-1408 | if no write fails and no limit is reached, every eligible stream sends exactly one block in each round, and the block count grows by rounds times eligible streams |
| Sending.ServedMeans | app/src/main/cpp/iperf/iperf_udp.c:192-240 | after n blocks a UDP stream is n packets on, and any stream at most n block sizes |
| Sending.Test.SendTimer | app/src/main/cpp/iperf/iperf_api.c:1465-1474 | the light of exactly this stream is set by comparing its bits with its allowance now, unless the test is done; the invariant holds |
| Sending.Test.StatsCallback | app/src/main/cpp/iperf/iperf_api.c:2608-2679 | every stream gets one row and a fresh interval; the invariant holds |
| Sending.Test.OmitTimer | app/src/main/cpp/iperf/iperf_client_api.c:186-200 | the end of the omitted start resets the totals, remembers the packets, losses and reorderings so far, and keeps the invariant |
| Sending.Test.Recv | app/src/main/cpp/iperf/iperf_api.c:1420-1438 | every ready receiver before the first error is read exactly once and no other stream is touched; the test's counters grow by those reads, the streams' only while the test runs; the invariant holds throughout |
| Sending.Test.RunClient | app/src/main/cpp/iperf/iperf_client_api.c:496-550 | over any number of turns of the client's loop, outside the omitted start, blocks sent never exceed the limit by more than (multisend - 1) + (streams - 1), and bytes sent stay below the byte limit plus (multisend - 1 + streams) blocks; the loop ends early only when the test is done or a limit is reached |
| Sending.Test.PacingHolds | app/src/main/cpp/iperf/iperf_api.c:1346-1418 | at every point of a paced test 8 * bytes sent <= rate * elapsed + 8 * max(1, burst) * block size, with elapsed counted from the fixed start |
| Sending.Test.SummariesHold | app/src/main/cpp/iperf/iperf_api.c:2583-2585 | at every point after the omitted start the summary of each stream is the growth of its counters since then |
| Sending.Test.BooksHold | app/src/main/cpp/iperf/iperf_api.c:1384-1396 | at every point bytes since the omitted start are the rows that count plus the open interval, for senders and receivers, and the test total is the sum over the senders |

## Left out

- JsonPrinter.Print: allocation failure is not modelled; growth fails only past the largest buffer size.
- JsonPrinter.PrintPreallocated: trees are `Printable` with `ShortNumbers`: strings without NUL and numbers whose text fits the 26-byte buffer of `print_number`; raw items and null string pointers are not modelled.
- JsonParser.ParseBuffer.ReadValue: builds values instead of linking heap nodes; node lists are modelled in `ChildList`, and error positions are not recorded.
- JsonParser.ParseBuffer.ReadNumber: a number is the text `strtod` accepts, with a decimal point of the C locale; its floating-point value and hexadecimal, infinity and NaN spellings are not modelled.
- JsonReparse.ReparseIsStable: numbers are texts here, so the text of a tree spells them as they were read; the library prints the parsed value, which may be spelled differently.
- JsonSyntax.SyntaxIsRead: a literal is what the two string passes accept, bad hexadecimal digits included, which read as 0; what the strings of RFC 8259 stand for is stated in `JsonStrings`.
- JsonMinify.RunMinify: what happens after a read past the terminator is not modelled.
- Framing.JsonExchange: assumes a message shorter than 2^32 - 1 bytes, the range of the length prefix.
- ChildList.AddItemToArray: null arguments, which the library ignores, are not modelled; an item must be in no list, as the library expects.
- ChildList.ReplaceItemViaPointer: the item to replace must be a child; deleting it afterwards is not modelled.
- Duplication.Duplicate: the non-recursive form, reference flags and allocation failure are not modelled.
- TimerQueue.Queue.Run: callbacks leave the queue alone, periodic timers have a positive period, and deadlines stay below the wrap-around of the 32-bit seconds field; the clients' cancelling callbacks are not modelled.
- TimerQueue.Queue.Create: allocation failure is not modelled.
- ControlProtocol.RunsAreSafe: both sides are values stepped by functions, not objects updated in place; error, signal, timeout and authentication paths (CLIENT_TERMINATE, SERVER_TERMINATE, ACCESS_DENIED to the client, SERVER_ERROR, a stranger that closes its connection) are not modelled, and a stranger never arrives before the client's control connection.
- Streams.GetResults: jitter, retransmits, times and CPU figures are not modelled.
- Udp.UdpStream.Receive: jitter is not modelled, nor the 32-bit range of the counters.
- Sending.GreenIsBelowRate: the quotient is exact instead of a double, and some time has passed since the start, because the code divides by it.
- Sending.Test.Send: called on a test that is not done, as the event loop does; counters are unbounded.
- Sending.Test.RunClient: timers run in a fixed order within a turn, the test timer only after the omitted start.
- Sockets, select sets, address resolution, affinity, files, SCTP, zero-copy sending: foreign calls.
- cJSON_Compare, the type predicates and the constructors of single items: would only add easy members.
- Text reports, units, locale and error strings, argument parsing: long but shallow.
- The Kotlin half of the app (user interface, HTTP, Wi-Fi tables) and the JNI glue around the report callback.

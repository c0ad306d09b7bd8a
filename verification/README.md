# TeamTalk server: models and proofs

TeamTalk is a suite of servers for instant messaging. This project models the parts of it that carry real state,
branching or arithmetic, and proves what they are for. `dafny verify dfyconfig.toml` checks all of it.

* **The incremental HTTP parser** (`Http*.dfy`, in strict mode). `HttpStep` is the parser as an automaton that reads one
  byte; `HttpExecute` is the parser as it runs, a class that moves through a buffer, keeps marks into it, hands over
  whole stretches and jumps over body bytes. The second refines the first for every cutting of the input. On the
  automaton are proved: no assert fires and every matcher stays in its literal; which request lines and status lines are
  accepted and what they are read as; header names and the values that set a flag, in any case, both ways; the content
  length, both ways, with a numeral for which it goes wrong; every kind of framing. From these `HttpMessages` builds
  whole requests and responses, told from their text alone, pipelined and cut anywhere; and `HttpUrl` proves the URL
  splitter.
* **The PDU byte stream** (`Bytes`, `SimpleBuffer`, `Pdu`, `ImConn`, `AttachData`). A growable buffer moved in place, a
  big-endian header, frames cut out of reads of any size, and output through a socket that takes what it likes.
* **File transfer** (`TransferTypes`, `OfflineFile`, `OfflineTask`, `OnlineTask`). Upload to disk in segments, reload
  after a restart, download; and the rendezvous of two online users, whose state is told from the history of events alone.
* **Threads** (`ConnPool`, `Workers`, `ProxyConn`). Connection pools under a mutex and a condition variable, worker
  queues, and the uuid by which a worker's answer finds its connection again. A critical section is one step.
* **Route servers** (`RouteServ`). Which connection is the master, and when a lost one is tried again.
* **Codecs** (`Json*`, `Base64`, `EncDec`, `IdUrl`). Each is undone by its inverse, and where it is not, exactly when.
* **Unacknowledged messages** (`SendList`). A timer scan that stops early and yet equals a full one.

Where the source updates things in place the model is a class or a method with a loop, proved against functions; the
results over all inputs and all runs are lemmas about those functions and invariants of those classes.

Text protocols are sequences of characters, one per byte; binary ones are sequences of `byte`. What comes from outside
is a parameter or left open: the clock, the random number that picks a worker, how many bytes a socket moves, whether a
file or a connection can be opened, whether a connect call works, and which sleeper a signal wakes. Each
nondeterministic choice stands for all.

Findings where the code does not do what it is for:

* A content length or a chunk size of 2^64 - 1 or more is not always refused: `HttpLength.LengthWraps` and
  `HttpChunks.SizeWraps`; the right number is read exactly below it: `HttpLength.LengthExactlyBelow`,
  `HttpChunks.SizeExactlyBelow`.
* The JSON parser takes the four hexadecimal digits of `\u` for a decimal number, so most control characters come back
  changed: `JsonRoundTrip.TextSurvives`. An object with an empty key anywhere never comes back (`JsonExact.RoundTrip`):
  with one of its own its text does not parse (`JsonExact.EmptyKeyNeverParses`), and with one further in it may parse and
  lose what it held (`JsonExact.EmptyKeyLosesItsObject`).
* The position of a byte stream wraps when it skips, so a pdu may lie outside its buffer: exactly when
  (`AttachData.AcceptedPduLiesInside`), and a buffer (`AttachData.PduOutsideIsAccepted`).
* Connection 2^32 gets the first uuid again: `ProxyConn.FirstUuidComesAgain`.
* `ChangePullState` of both kinds of task can answer true without changing the state: `OfflineTask.JoinTakesEffect` and
  `OnlineTask.JoinTakesEffect` say exactly when it does change, `OfflineTask.EarlyDownloadIsAnsweredTrue` and
  `OnlineTask.SecondJoinIsAnsweredTrue` show when it does not.
* An uploaded block that is shorter than expected is taken, with the memory behind it: `OfflineTask.Task.DoRecvData` says
  exactly when what is stored is the sender's, `OfflineTask.EmptyBlockIsTaken` shows when it is not.
* A route server whose connect call fails at once is never tried again (`RouteServ.StuckForever`), and one is stuck
  exactly if such a call has failed: `RouteServ.StuckExactly`.
* `idtourl` loses the top bit of an id: `IdUrl.IdRoundTrip`.

## Model

| member | source | states |
|---|---|---|
| `HttpStep.Handle` | TeamTalk/server/src/base/http_parser.cpp:646-1853 | one pass through the switch: a byte that is to be read again goes to a state of strictly lower rank, and the call is left early only between messages |
| `HttpStep.React` | TeamTalk/server/src/base/http_parser.cpp:644-1853 | a byte and all its re-readings end (the rank decreases), and an early exit leaves the parser between messages |
| `HttpStep.StartByte` | TeamTalk/server/src/base/http_parser.cpp:657-911 | the start states, with the same promise about re-reading and leaving |
| `HttpStep.ParseUrlChar` | TeamTalk/server/src/base/http_parser.cpp:424-570 | the URL automaton stays in URL states or dies |
| `HttpStep.ValueByte` | TeamTalk/server/src/base/http_parser.cpp:1371-1568 | header values: lower rank on re-reading, no early exit inside a message |
| `HttpStep.RunConcat` | TeamTalk/server/src/base/http_parser.cpp:632-1856 | the automaton over a concatenation is the automaton over its parts, one after the other |
| `HttpStep.RunHalted` | TeamTalk/server/src/base/http_parser.cpp:581-583 | an error or an early exit freezes the automaton, whatever follows |
| `HttpInvariant.DivertKeepsPrefix` | TeamTalk/server/src/base/http_parser.cpp:913-994 | whenever the method state switches names, the bytes read so far are still a prefix of the new name |
| `HttpInvariant.ReactKeepsInv` | TeamTalk/server/src/base/http_parser.cpp:644-1853 | one byte, re-readings included, keeps the matcher index inside its literal, the method prefix, and the length and flag conditions of the body states |
| `HttpInvariant.RunKeepsInv` | TeamTalk/server/src/base/http_parser.cpp:632-1853 | every input keeps that invariant or ends in a parse error that is not a failed assert |
| `HttpInvariant.NoAssertFires` | TeamTalk/server/src/base/http_parser.cpp:632-1853 | from http_parser_init, for every input: no internal assert fires, nread stays within 80 KiB without an error, and the matcher index never leaves its literal |
| `HttpExecute.HttpParser.constructor` | TeamTalk/server/src/base/http_parser.cpp:1916-1926 | the parser starts as http_parser_init leaves it |
| `HttpExecute.HttpParser.Dispatch` | TeamTalk/server/src/base/http_parser.cpp:646-1853 | one pass of the mark-and-batch code does to the fields what the one-byte automaton does, and delivers exactly the bytes whose marks it clears |
| `HttpExecute.HttpParser.TakeBody` | TeamTalk/server/src/base/http_parser.cpp:1662-1811 | the body states take as many bytes at once as the length and the buffer allow, and this equals that many automaton steps |
| `HttpExecute.HttpParser.TurnByte` | TeamTalk/server/src/base/http_parser.cpp:632-1853 | one loop turn keeps: fields equal to the automaton's, and delivered bytes plus marked bytes equal to its trace |
| `HttpExecute.HttpParser.TurnJump` | TeamTalk/server/src/base/http_parser.cpp:1662-1811 | the same for a turn that jumps over body bytes |
| `HttpExecute.HttpParser.TakeBuffer` | TeamTalk/server/src/base/http_parser.cpp:604-1865 | a whole non-empty buffer: the call refines the automaton, ends, and returns the number of bytes taken |
| `HttpExecute.HttpParser.Execute` | TeamTalk/server/src/base/http_parser.cpp:572-1865 | any call on any buffer: the automaton's fields and count, its whole trace if there is no error and a trace that lost only undelivered bytes if there is one; the end-of-stream rules for an empty buffer |
| `HttpExecute.HttpParser.ExecuteAll` | TeamTalk/server/src/base/http_parser.cpp:572-1865 | input cut into any non-empty pieces reaches the fields, and without an error the trace, of one automaton run over the concatenation |
| `HttpExecute.JumpIsRun` | TeamTalk/server/src/base/http_parser.cpp:1662-1811 | skipping k body bytes at once is k automaton steps |
| `HttpExecute.RunExtends` | TeamTalk/server/src/base/http_parser.cpp:632-1853 | adding one byte to the text read extends the run by that byte's step |
| `HttpMethodToken.BothReadRequests` | TeamTalk/server/src/base/http_parser.cpp:657-692 | a parser for both kinds of messages reads a request, from its first bytes on, exactly as a request parser does |
| `HttpMethodToken.MatcherTellsTruth` | TeamTalk/server/src/base/http_parser.cpp:657-994 | while the method is read without an error, the bytes read are a prefix of the name of the method held; also from the start state for both kinds of messages |
| `HttpMethodToken.NameIsRead` | TeamTalk/server/src/base/http_parser.cpp:657-994 | every prefix of every method's name is accepted, as far as it cannot be the start of a response |
| `HttpMethodToken.MethodAccepted` | TeamTalk/server/src/base/http_parser.cpp:657-994 | the parser gets past the method with method m if and only if the bytes read are the name of m, also where a response might have come |
| `HttpStartLines.TargetIsRead` | TeamTalk/server/src/base/http_parser.cpp:996-1065 | the parser accepts exactly the request targets that the URL automaton accepts, and delivers them whole |
| `HttpStartLines.NumberIsRead` | TeamTalk/server/src/base/http_parser.cpp:737-850 | a version number or status code is read as its decimal value if that is below 1000, and refused otherwise |
| `HttpStartLines.VersionIsRead` | TeamTalk/server/src/base/http_parser.cpp:1103-1178 | a version is read as two decimal numbers if and only if both are below 1000 |
| `HttpStartLines.RequestLineIsRead` | TeamTalk/server/src/base/http_parser.cpp:657-1188 | a request line, with any number of spaces, with or without a version, ended by CR LF or LF, is accepted if and only if its target may end where it does and its version numbers are below 1000; then method, version (0.9 without one) and delivered target are those of the line |
| `HttpStartLines.BothReadResponses` | TeamTalk/server/src/base/http_parser.cpp:657-709 | a parser for both kinds of messages reads a response, from its first bytes on, exactly as a response parser does |
| `HttpStartLines.StatusLineIsRead` | TeamTalk/server/src/base/http_parser.cpp:657-870 | a status line, with any number of spaces before the code, with or without a reason, ended by CR LF or LF, is accepted if and only if its three numbers are below 1000, also from the start state for both kinds of messages; then version and status code are those of the line, and only CR LF announces the end of the status |
| `HttpHeaders.NameIsRead` | TeamTalk/server/src/base/http_parser.cpp:1191-1369 | reading a header name recognises connection, proxy-connection, content-length, transfer-encoding and upgrade in any case, and nothing else |
| `HttpValues.ValueIsRead` | TeamTalk/server/src/base/http_parser.cpp:1371-1533 | the value of a transfer-encoding or connection header is delivered whole and recognised, in any case, for what it says |
| `HttpLines.LineIsRead` | TeamTalk/server/src/base/http_parser.cpp:1191-1568 | any header line delivers exactly its name and its value without leading blanks, byte for byte, and changes of the message only the flags and the length, to what its name and value say |
| `HttpLines.LineSetsFlags` | TeamTalk/server/src/base/http_parser.cpp:1371-1556 | in any case: transfer-encoding sets chunked, and connection or proxy-connection sets keep-alive or close, if and only if the value is that word with nothing but spaces behind it; upgrade sets its flag if and only if its value is not empty; no other line sets a flag |
| `HttpLines.LinesAreRead` | TeamTalk/server/src/base/http_parser.cpp:1191-1568 | a section of any such lines in any order delivers all of them, adds up their flags, and keeps the last length |
| `HttpLength.LengthIsRead` | TeamTalk/server/src/base/http_parser.cpp:1410-1487 | a numeral below 2^64 - 1 is read into the length without an error |
| `HttpLength.LengthExactlyBelow` | TeamTalk/server/src/base/http_parser.cpp:1410-1487 | the length read is the value of the numeral if and only if that value is below 2^64 - 1 |
| `HttpLength.LengthWraps` | TeamTalk/server/src/base/http_parser.cpp:1464-1487 | a numeral for which the wrap test fails: 30000000000000000000 is accepted as 11553255926290448384 |
| `HttpFraming.BlankLine` | TeamTalk/server/src/base/http_parser.cpp:1570-1660 | the empty line announces the end of the headers and goes on by the first that applies of upgrade or CONNECT, chunks, length, and the end of the connection; a message that ends there is completed at once |
| `HttpFraming.BodyIsRead` | TeamTalk/server/src/base/http_parser.cpp:1662-1708 | exactly the announced number of bytes are body, and then the message is complete |
| `HttpFraming.EndlessBodyIsRead` | TeamTalk/server/src/base/http_parser.cpp:1699-1703 | where only the end of the connection ends the body, every byte is body |
| `HttpChunks.SizeIsRead` | TeamTalk/server/src/base/http_parser.cpp:1710-1761 | a hexadecimal chunk size is read as its value |
| `HttpChunks.SizeExactlyBelow` | TeamTalk/server/src/base/http_parser.cpp:1710-1761 | the chunk size read is the value of the numeral if and only if that value is below 2^64 - 1 |
| `HttpChunks.SizeWraps` | TeamTalk/server/src/base/http_parser.cpp:1745-1758 | a numeral for which the wrap test fails: the chunk size 12000000000000000 is accepted as 2^61 |
| `HttpChunks.ChunkIsRead` | TeamTalk/server/src/base/http_parser.cpp:1710-1838 | one chunk delivers its data and comes back to the start of a chunk |
| `HttpChunks.ChunkedBodyIsDecoded` | TeamTalk/server/src/base/http_parser.cpp:1570-1838 | section 3.6.1 of RFC 2616: any chunks closed by a zero chunk deliver the concatenation of their data and exactly one end of message, and the next message starts as the headers said |
| `HttpMessages.ContentIsRead` | TeamTalk/server/src/base/http_parser.cpp:1570-1838 | section 4.4 of RFC 2616: whichever framing the headers ask for, exactly the content's bytes are delivered between the end of the headers and one end of message |
| `HttpMessages.RequestIsRead` | TeamTalk/server/src/base/http_parser.cpp:657-1853 | a whole request, told from its text alone: its events and no others, every byte of it and no more, left early exactly for an upgrade line or CONNECT, and ready for the next request or dead as its version and connection lines say |
| `HttpMessages.PipelineIsRead` | TeamTalk/server/src/base/http_parser.cpp:572-1853 | requests in a row, of which all but the last keep the connection, are delivered one after the other, each to its own last byte |
| `HttpMessages.NothingAfterClose` | TeamTalk/server/src/base/http_parser.cpp:647-655 | behind a request that closes the connection any further message is an error and delivers nothing |
| `HttpMessages.NothingAfterUpgrade` | TeamTalk/server/src/base/http_parser.cpp:1626-1631 | behind an upgrade the parser takes no byte of what follows |
| `HttpMessages.ResponseIsRead` | TeamTalk/server/src/base/http_parser.cpp:657-1853 | a whole response, told from its text alone, with the same promises; without length and chunks its body lasts to the end of the connection unless its code forbids a body |
| `HttpMessages.ReceiveRequests` | TeamTalk/server/src/base/http_parser.cpp:572-1865 | a new parser object, for requests or for both kinds, fed pipelined requests in any non-empty pieces, delivers exactly their events |
| `HttpMessages.ReceiveResponse` | TeamTalk/server/src/base/http_parser.cpp:572-1865 | a new parser object, for responses or for both kinds, fed a response in any non-empty pieces, delivers exactly its events |
| `HttpMessages.ReceiveChunked` | TeamTalk/server/src/base/http_parser.cpp:572-1865 | a chunked body on the parser object, with the input cut into any non-empty pieces |
| `HttpUrl.ParseHost` | TeamTalk/server/src/base/http_parser.cpp:2004-2076 | user info, host and port are found in bounds, in order and disjoint, or the authority is refused, exactly when the host automaton ends in no final state |
| `HttpUrl.SplitUrl` | TeamTalk/server/src/base/http_parser.cpp:2086-2146 | the first split into scheme, host area, path, query and fragment is arranged in order and covers the text up to delimiters |
| `HttpUrl.RefineUrl` | TeamTalk/server/src/base/http_parser.cpp:2148-2154 | putting the parts of the authority in place of the host area keeps order, disjointness and coverage |
| `HttpUrl.ParseUrl` | TeamTalk/server/src/base/http_parser.cpp:2077-2174 | section 3 of RFC 3986: every accepted URL is split into in-bounds, ordered, disjoint parts with nothing but delimiters between them, and a scheme has a host; which texts are accepted, for CONNECT and otherwise, and which port they name, both told from the text alone |
| `Bytes.GetPut16` | TeamTalk/server/src/base/UtilPdu.cpp:93-97 | a 16-bit number read back big-endian is the one written |
| `Bytes.GetPut32` | TeamTalk/server/src/base/UtilPdu.cpp:105-109 | a 32-bit number read back big-endian is the one written |
| `SimpleBuffer.Buffer.Extend` | TeamTalk/server/src/base/UtilPdu.cpp:32-38 | growing to a quarter over the need keeps the contents |
| `SimpleBuffer.Buffer.Write` | TeamTalk/server/src/base/UtilPdu.cpp:40-55 | contents become the old contents and then the new bytes |
| `SimpleBuffer.Buffer.Read` | TeamTalk/server/src/base/UtilPdu.cpp:57-68 | the bytes read and the contents left are together the old contents |
| `Pdu.HeaderRoundTrip` | TeamTalk/server/src/base/ImPduBase.cpp:45-118 | the sixteen header bytes, read back, give the same seven fields |
| `Pdu.SplitInPieces` | TeamTalk/server/src/base/ImPduBase.cpp:120-157 | cutting frames can stop after any bytes and go on from the rest: bytes that come later never change earlier frames |
| `Pdu.FramesInOrder` | TeamTalk/server/src/base/ImPduBase.cpp:120-157 | of a stream of well-formed pdus, any prefix gives exactly the first pdus in order and a strict prefix of the next |
| `Pdu.WireIsWellFormed` | TeamTalk/server/src/base/ImPduBase.cpp:159-175 | a serialised message is a well-formed pdu from which the message is received |
| `Pdu.MessagesRoundTrip` | TeamTalk/server/src/base/ImPduBase.cpp:120-175 | end to end: any messages serialised one after the other come back as those messages and leave nothing |
| `ImConn.ImPdu.SetPBMsg` | TeamTalk/server/src/base/ImPduBase.cpp:159-175 | the buffer becomes the header with the true length, then the body |
| `ImConn.ImPdu.WriteHeader` | TeamTalk/server/src/base/ImPduBase.cpp:45-56 | the first sixteen bytes become the header fields with the buffer's length; the rest stays |
| `ImConn.ImPdu.SetField` | TeamTalk/server/src/base/ImPduBase.cpp:58-98 | a setter changes just its field of the message on the wire |
| `ImConn.ImPdu.ReadPduHeader` | TeamTalk/server/src/base/ImPduBase.cpp:100-118 | the fields become those in the bytes, or stay if there are fewer than sixteen |
| `ImConn.ReadPdu` | TeamTalk/server/src/base/ImPduBase.cpp:120-157 | the first frame of the stream in a buffer of its own, or no pdu yet, or failure, each exactly when the stream says so |
| `ImConn.Conn.SendNow` | TeamTalk/server/src/base/imconn.cpp:91-111 | the send loop hands the socket a prefix of the data, in order, whatever the socket takes each time |
| `ImConn.Conn.Send` | TeamTalk/server/src/base/imconn.cpp:80-121 | all data so far is what the socket accepted and then the output buffer, for any partial or refused socket writes; busy if and only if that buffer is not empty |
| `ImConn.Conn.OnWrite` | TeamTalk/server/src/base/imconn.cpp:166-191 | the same after draining as much as the socket takes |
| `ImConn.Conn.ReadAll` | TeamTalk/server/src/base/imconn.cpp:123-140 | every byte received is appended to the input buffer |
| `ImConn.Conn.HandleAll` | TeamTalk/server/src/base/imconn.cpp:141-164 | the frames handled so far and the input buffer are the split of all bytes ever delivered; a zero length closes |
| `ImConn.Conn.OnRead` | TeamTalk/server/src/base/imconn.cpp:123-164 | the same over one whole readable event |
| `ImConn.Drive` | TeamTalk/server/src/base/imconn.cpp:80-191 | any run of sends, writable, arriving and readable events keeps both streams lossless and in order, and stops only before an event that would overfill a buffer |
| `ImConn.HandledInOrder` | TeamTalk/server/src/base/imconn.cpp:123-164 | a connection in any such run has handled exactly the pdus its peer sent, as far as they were delivered, and holds a strict prefix of the next |
| `AttachData.Serialize` | TeamTalk/server/src/msg_server/AttachData.cpp:30-38 | the buffer holds the three numbers, the length and the pdu |
| `AttachData.Parse` | TeamTalk/server/src/msg_server/AttachData.cpp:40-47 | reading through the moving position gives the fields, or fails, exactly as the bytes say |
| `AttachData.FieldsOfSerialized` | TeamTalk/server/src/msg_server/AttachData.cpp:30-47 | reading undoes writing |
| `AttachData.AcceptedPduLiesInside` | TeamTalk/server/src/base/UtilPdu.h:96-103 | an accepted pdu lies inside its buffer if and only if its length field is below 2^32 - 16, because the position wraps |
| `AttachData.PduOutsideIsAccepted` | TeamTalk/server/src/base/UtilPdu.h:96-103 | twelve zero bytes and the length 2^32 - 16 are accepted, with a pdu that ends far behind the buffer |
| `OfflineFile.HeaderIsRead` | TeamTalk/server/src/file_server/transfer_task.h:42-112 | the 960-byte text header, read back, gives the same task |
| `OfflineFile.LoadableOnlyWhole` | TeamTalk/server/src/file_server/transfer_task.cpp:261-290 | whatever moment cuts an upload off, the file loads again if and only if all of it had arrived |
| `OfflineFile.SegmentsTile` | TeamTalk/server/src/file_server/transfer_task.h:289-309 | segment blocks start where the one before ends, none is empty or over 32768 bytes, and the last ends with the file |
| `OfflineFile.BlocksJoin` | TeamTalk/server/src/file_server/transfer_task.h:289-309 | the first k blocks joined are a prefix of the file, and all of them the file |
| `OfflineTask.Task.constructor` | TeamTalk/server/src/file_server/transfer_task.h:250-261 | a new task is ready and has stored nothing |
| `OfflineTask.Task.Load` | TeamTalk/server/src/file_server/transfer_task.cpp:267-278 | a reloaded task waits for download with the header's fields and the rest of the file as its body |
| `OfflineTask.Task.ChangePullState` | TeamTalk/server/src/file_server/transfer_task.cpp:297-354 | the answer says whether user and role fit, and the state is the old one or the one that the join leads to |
| `OfflineTask.JoinTakesEffect` | TeamTalk/server/src/file_server/transfer_task.cpp:297-375 | a join is answered true and changes the state if and only if it is the sender's upload to a ready task or the receiver's download from an uploaded one |
| `OfflineTask.EarlyDownloadIsAnsweredTrue` | TeamTalk/server/src/file_server/transfer_task.cpp:317-342 | the receiver who asks before the upload is answered true and nothing changes |
| `OfflineTask.Task.DoRecvData` | TeamTalk/server/src/file_server/transfer_task.cpp:377-455 | a wrong user, state or offset changes nothing; an accepted block of whatever length stores as many bytes as were expected, which are the sender's exactly if it sent that many, and the last one ends the upload |
| `OfflineTask.EmptyBlockIsTaken` | TeamTalk/server/src/file_server/transfer_task.cpp:397-439 | a push without data is taken, and the memory behind it is stored |
| `OfflineTask.Task.OpenForPull` | TeamTalk/server/src/file_server/transfer_task.cpp:471-502 | a first pull starts over behind the header |
| `OfflineTask.Task.DoPullFileRequest` | TeamTalk/server/src/file_server/transfer_task.cpp:457-615 | a pull is served if and only if it asks for the next block, with exactly that block of what was uploaded; the last one has handed out the whole file |
| `OfflineTask.Task.ConnClosed` | TeamTalk/server/src/file_server/file_client_conn.cpp:73-85 | closing makes an uploaded task wait for download and changes no other |
| `OfflineTask.LoadFromDisk` | TeamTalk/server/src/file_server/transfer_task.cpp:261-290 | on any file: succeeds if and only if the file is there, opens, and has as many bytes behind its header as the header says; then the task is the header's |
| `OfflineTask.LoadUpload` | TeamTalk/server/src/file_server/transfer_task.cpp:261-290 | on whatever part of an upload has reached the disk: succeeds if and only if all of it has; then it is the task that was uploaded |
| `OfflineTask.RestartNeedsWholeUpload` | TeamTalk/server/src/file_server/transfer_task.cpp:261-290 | wherever any run stands, what is on disk loads again if and only if the upload had ended |
| `OfflineTask.Upload` | TeamTalk/server/src/file_server/file_client_conn.cpp:495-573 | answering each request for the next block uploads the content in exactly as many blocks as the file has segments |
| `OfflineTask.Download` | TeamTalk/server/src/file_server/file_client_conn.cpp:412-493 | asking for the next block until told of the last downloads the content in as many |
| `OfflineTask.RoundTrip` | TeamTalk/server/src/file_server/transfer_task.cpp:261-615 | upload, restart and download give the original bytes in exactly ceil(size / 32768) segments each way |
| `OfflineTask.AnyRun` | TeamTalk/server/src/file_server/transfer_task.cpp:297-615 | in any run of any calls, right or wrong, the task's state, index and stored bytes are those that the calls make, and what was stored stays a prefix of what is stored; only a push that is taken has to be readable as far as the block that is expected |
| `OfflineTask.HonestUploads` | TeamTalk/server/src/file_server/transfer_task.cpp:297-615 | through any joins, closings, pulls, failing opens, repeated or misplaced blocks and foreign pushes, an honest sender's upload is always the first blocks of the content, and all of it once it has ended |
| `OfflineTask.HonestRun` | TeamTalk/server/src/file_server/transfer_task.cpp:297-615 | so a new task that an honest sender uploads to always holds the first blocks of the content, and its file, once the upload has ended, is the header and the content |
| `OnlineTask.OneMore` | TeamTalk/server/src/file_server/transfer_task.cpp:126-258 | how one more event changes what the history says |
| `OnlineTask.TransferNeedsBoth` | TeamTalk/server/src/file_server/transfer_task.cpp:126-258 | a task is ready to transfer or transferring if and only if the sender joined as sender, the receiver as receiver, and no connection closed |
| `OnlineTask.ClosedForGood` | TeamTalk/server/src/file_server/file_client_conn.cpp:73-75 | once closed a task stays invalid whatever follows |
| `OnlineTask.JoinTakesEffect` | TeamTalk/server/src/file_server/transfer_task.cpp:126-204 | a join is answered true and changes the state if and only if user and role fit and nobody came before or the one who did waits for just this role |
| `OnlineTask.SecondJoinIsAnsweredTrue` | TeamTalk/server/src/file_server/transfer_task.cpp:140-167 | the sender who joins twice is answered true twice, and the second time nothing changes |
| `OnlineTask.Task.ChangePullState` | TeamTalk/server/src/file_server/transfer_task.cpp:126-183 | the state is the one that the whole history of events determines, in whatever order the joins came, and the answer true comes with a change exactly when the join takes effect |
| `OnlineTask.Task.DoRecvData` | TeamTalk/server/src/file_server/transfer_task.cpp:206-235 | data is accepted if and only if it is the sender's, both have joined and nothing closed |
| `OnlineTask.Task.DoPullFileRequest` | TeamTalk/server/src/file_server/transfer_task.cpp:237-258 | a pull is accepted if and only if both have joined and nothing closed; who pulls is not checked here |
| `OnlineTask.Task.Close` | TeamTalk/server/src/file_server/file_client_conn.cpp:73-75 | closing is one more event of the history |
| `ConnPool.StepKeepsInv` | TeamTalk/server/src/db_proxy_server/CachePool.cpp:601-649 | every step of every thread keeps the accounting and loses no wake-up |
| `ConnPool.PoolIsSafe` | TeamTalk/server/src/db_proxy_server/CachePool.cpp:585-649 | in every run from a fresh pool: connections = free + held, at most max(2, the limit), none held twice, and free connections never exceed woken threads while a thread sleeps |
| `ConnPool.CachePool.constructor` | TeamTalk/server/src/db_proxy_server/CachePool.cpp:562-570 | a new pool counts two connections and has opened none |
| `ConnPool.CachePool.Init` | TeamTalk/server/src/db_proxy_server/CachePool.cpp:585-599 | a pool whose first two connections open is the fresh pool of the machine; if one fails, the call says so and the count is wrong |
| `ConnPool.CachePool.GetCacheConn` | TeamTalk/server/src/db_proxy_server/CachePool.cpp:601-630 | the wait loop does one step of the machine, and says exactly when it gets a connection nobody holds, fails, or waits |
| `ConnPool.CachePool.RelCacheConn` | TeamTalk/server/src/db_proxy_server/CachePool.cpp:632-649 | releasing with its search and signal is one step of the machine |
| `Workers.Worker.PushTask` | TeamTalk/server/src/base/ThreadPool.cpp:60-66 | the task is last in its worker's order, and a sleeping worker is woken |
| `Workers.Worker.Fetch` | TeamTalk/server/src/base/ThreadPool.cpp:39-49 | the worker takes the first task or sleeps on an empty queue |
| `Workers.Worker.Finish` | TeamTalk/server/src/base/ThreadPool.cpp:51-56 | the task that ran is executed once |
| `Workers.ThreadPool.AddTask` | TeamTalk/server/src/base/ThreadPool.cpp:102-111 | exactly the worker picked gets the task |
| `Workers.AnyRun` | TeamTalk/server/src/base/ThreadPool.cpp:37-111 | in any run of any pool each worker has executed a prefix of exactly its tasks in push order, has the rest before it, and sleeps only when there is none |
| `ProxyConn.SameUuid` | TeamTalk/server/src/db_proxy_server/ProxyConn.cpp:103-111 | two connections share a uuid if and only if their places differ by a multiple of 2^32 - 1 |
| `ProxyConn.FirstUuidComesAgain` | TeamTalk/server/src/db_proxy_server/ProxyConn.cpp:103-111 | connection 2^32 has the first uuid again, so the limit is sharp |
| `ProxyConn.NextUuid` | TeamTalk/server/src/db_proxy_server/ProxyConn.cpp:103-108 | the wrapping counter that skips zero gives the closed form |
| `ProxyConn.Proxy.AllocateUuid` | TeamTalk/server/src/db_proxy_server/ProxyConn.cpp:103-108 | the allocator gives the uuid of the connection's place in the order of creation |
| `ProxyConn.Proxy.Connect` | TeamTalk/server/src/db_proxy_server/ProxyConn.cpp:103-143 | a new connection is entered in both maps and replaces no entry |
| `ProxyConn.Proxy.Close` | TeamTalk/server/src/db_proxy_server/ProxyConn.cpp:118-128 | closing removes the connection from both maps and changes nothing else |
| `ProxyConn.Proxy.HandlePduBuf` | TeamTalk/server/src/db_proxy_server/ProxyConn.cpp:199-215 | a request becomes a task under the uuid of the connection that sent it, unless it is a heartbeat or has no handler |
| `ProxyConn.Proxy.AddResponsePdu` | TeamTalk/server/src/db_proxy_server/ProxyConn.cpp:223-232 | a response goes last in the list with its task's uuid |
| `ProxyConn.Proxy.RunTask` | TeamTalk/server/src/db_proxy_server/ProxyTask.cpp:29-40 | running a task adds all its answers, in order and under its uuid, and removes the task |
| `ProxyConn.Proxy.SendFront` | TeamTalk/server/src/db_proxy_server/ProxyConn.cpp:236-253 | for up to 2^32 - 1 connections a response is sent to the connection that asked if that is open, and to nobody otherwise |
| `ProxyConn.Proxy.SendResponsePduList` | TeamTalk/server/src/db_proxy_server/ProxyConn.cpp:234-259 | the same for the whole list, in order |
| `ProxyConn.Proxy.ResponsesReachTheirIssuer` | TeamTalk/server/src/db_proxy_server/ProxyConn.cpp:91-259 | whenever the maps agree, every response sent went to its issuer, or to a connection a multiple of 2^32 - 1 places away |
| `ProxyConn.AnyRun` | TeamTalk/server/src/db_proxy_server/ProxyConn.cpp:91-259 | in any run of connects, closes, requests, answered tasks and sends, with up to 2^32 - 1 connections, the server does exactly what one does that addresses each response to its issuer; with more, a response may also go a multiple of 2^32 - 1 places away |
| `ProxyConn.DeliversToAskers` | TeamTalk/server/src/db_proxy_server/ProxyConn.cpp:199-259 | that server delivers every response to its issuer, and only to connections that sent a request |
| `RouteServ.WaitingTimesCycle` | TeamTalk/server/src/base/ServInfo.h:56-68 | repeated failures wait 4, 8, 16, 32 and 64 ticks and then start over |
| `RouteServ.RetriedInTime` | TeamTalk/server/src/base/ServInfo.h:39-53 | an empty slot is retried after exactly the ticks its wait has left, between 1 and 64 |
| `RouteServ.Router.constructor` | TeamTalk/server/src/base/ServInfo.h:27-36 | every slot starts with a connection being made |
| `RouteServ.Router.UpdateMaster` | TeamTalk/server/src/msg_server/RouteServConn.cpp:97-123 | the scan finds the first of the oldest open connections, or none if none is open |
| `RouteServ.Router.OnConfirm` | TeamTalk/server/src/msg_server/RouteServConn.cpp:166-175 | the slot's connection is open since now and its waiting time reset; the master stays, or is this connection if there was none |
| `RouteServ.Router.Close` | TeamTalk/server/src/msg_server/RouteServConn.cpp:149-164 | the slot empties and waits longer, and the master is again the oldest open connection |
| `RouteServ.Router.CheckReconnect` | TeamTalk/server/src/base/ServInfo.h:39-53 | a tick counts in every empty slot, retries the due ones and leaves the others and the master alone |
| `RouteServ.StuckForever` | TeamTalk/server/src/base/ServInfo.h:39-53 | a slot whose connect call failed at once keeps its dead connection in every run: nothing retries it |
| `RouteServ.StuckExactly` | TeamTalk/server/src/base/ServInfo.h:27-53 | after any run a slot is stuck, and so for ever, if and only if its first connect call failed at once or one did that a tick of the run made for it |
| `RouteServ.DeadFromTheStart` | TeamTalk/server/src/base/ServInfo.h:27-53 | one server whose first connect call fails at once is never connected, whatever happens later |
| `RouteServ.AnyRun` | TeamTalk/server/src/msg_server/RouteServConn.cpp:97-175 | in every run every slot's connection, connect time, wait and count, the master and the clock are those that the events make, there is a master if and only if a connection is open, and it is an oldest one |
| `JsonParse.MatchFrom` | TeamTalk/server/src/msg_server/jsonxx.cpp:54-74 | a match takes the pattern off the stream, a failed one puts it back |
| `JsonParse.ParseValue` | TeamTalk/server/src/msg_server/jsonxx.cpp:285-323 | parsing never leaves more input than it found, so its recursion ends |
| `JsonRoundTrip.CharRead` | TeamTalk/server/src/msg_server/jsonxx.cpp:86-134 | one printed character is read back as itself or, for control characters, as its hexadecimal digits taken for decimal |
| `JsonRoundTrip.StringRead` | TeamTalk/server/src/msg_server/jsonxx.cpp:76-142 | a printed string is read back character by character and ends at its quote |
| `JsonRoundTrip.TextSurvives` | TeamTalk/server/src/msg_server/jsonxx.cpp:76-142 | a string survives if and only if it has no control character but those below 8 and \b \f \n \r \t |
| `JsonTree.TagIsLine` | TeamTalk/server/src/msg_server/jsonxx.cpp:497-550 | the printer builds each value's text with exactly its last comma removed |
| `JsonTree.ValueParses` | TeamTalk/server/src/msg_server/jsonxx.cpp:285-323 | any printed value is read back and reading stops where its text stops |
| `JsonTree.ItemsParse` | TeamTalk/server/src/msg_server/jsonxx.cpp:331-351 | printed array items are read back in order up to the bracket |
| `JsonTree.ObjectParses` | TeamTalk/server/src/msg_server/jsonxx.cpp:230-266 | a printed object is read back member by member |
| `JsonTokens.ValueAt` | TeamTalk/server/src/msg_server/jsonxx.cpp:285-323 | on printed text, wherever in it parsing starts, a value is read without empty keys and reading stops between two tokens |
| `JsonTokens.MembersAt` | TeamTalk/server/src/msg_server/jsonxx.cpp:239-262 | the member loop on printed text never takes an empty key |
| `JsonExact.PrintedParses` | TeamTalk/server/src/msg_server/jsonxx.cpp:778-789 | every printed object without empty keys parses, to its mangled members |
| `JsonExact.Survives` | TeamTalk/server/src/msg_server/jsonxx.cpp:76-142 | a value is mangled into itself if and only if all its strings and keys are good |
| `JsonExact.NoEmptyKeyComesBack` | TeamTalk/server/src/msg_server/jsonxx.cpp:230-266 | whatever object is printed, what is parsed from its text has no empty key at any depth |
| `JsonExact.RoundTrip` | TeamTalk/server/src/msg_server/jsonxx.cpp:778-789 | parsing the printed form gives the same object if and only if it has no empty key and all its strings and keys are good, at any depth |
| `JsonExact.EmptyKeyNeverParses` | TeamTalk/server/src/msg_server/jsonxx.cpp:506-550 | an object with an empty key of its own prints to text that never parses |
| `JsonExact.EmptyKeyLosesItsObject` | TeamTalk/server/src/msg_server/jsonxx.cpp:230-266 | {key: {"": text}} parses without an error, to the empty object, for every key and text |
| `JsonReader.Reader.TryMatch` | TeamTalk/server/src/msg_server/jsonxx.cpp:54-74 | the loop over the stream matches as specified |
| `JsonReader.Reader.ReadString` | TeamTalk/server/src/msg_server/jsonxx.cpp:76-142 | the loop over the stream reads a string as specified |
| `JsonReader.Reader.ReadValue` | TeamTalk/server/src/msg_server/jsonxx.cpp:285-323 | the alternatives tried in order give the specified value and rest |
| `JsonReader.Reader.ReadArray` | TeamTalk/server/src/msg_server/jsonxx.cpp:331-351 | the item loop gives the specified array and rest |
| `JsonReader.Reader.ReadObject` | TeamTalk/server/src/msg_server/jsonxx.cpp:230-266 | the member loop gives the specified object and rest |
| `JsonWriter.EscapeString` | TeamTalk/server/src/msg_server/jsonxx.cpp:460-492 | the loop escapes the whole string |
| `JsonWriter.WriteTag` | TeamTalk/server/src/msg_server/jsonxx.cpp:506-550 | the recursive printer with its loops gives the specified text |
| `JsonNumbers.IntegersAreFaithful` | TeamTalk/server/src/msg_server/jsonxx.cpp:144-152 | the assumptions about number text can be met |
| `Base64.Encode` | TeamTalk/server/src/base/Base64.cpp:32-65 | the loop over the wrapping accumulator, written in place, gives the encoding of section 4 of RFC 4648 |
| `Base64.Decode` | TeamTalk/server/src/base/Base64.cpp:67-91 | the loop gives the bytes of the symbols, skipping white space and padding, or nothing if another character occurs |
| `Base64.LowBits8` | TeamTalk/server/src/base/Base64.cpp:50-57 | the wrap of the 32-bit accumulator never reaches the bits still to be put out |
| `Base64.EncodedLength` | TeamTalk/server/src/base/Base64.cpp:44 | the encoding of n bytes has 4 * ceil(n / 3) characters |
| `Base64.DecodeInvertsEncode` | TeamTalk/server/src/base/Base64.cpp:32-91 | decoding undoes encoding for all bytes |
| `EncDec.BlockCountIsLeast` | TeamTalk/server/src/base/EncDec.cpp:30-36 | the number of blocks is the least that leaves four bytes behind the message, so the length never overlaps data |
| `EncDec.Encrypt` | TeamTalk/server/src/base/EncDec.cpp:24-58 | the result is the encoding of the encrypted layout, or the error code |
| `EncDec.Decrypt` | TeamTalk/server/src/base/EncDec.cpp:60-98 | the result is the plain text up to its stored length, or the error code of the first failed check |
| `EncDec.EncryptedFits` | TeamTalk/server/src/base/EncDec.cpp:42-57 | the encrypted text of an input within the limit has a length of 32 bits |
| `EncDec.DecryptInvertsEncrypt` | TeamTalk/server/src/base/EncDec.cpp:24-98 | decrypting undoes encrypting for every non-empty message within 32-bit limits and every invertible block cipher |
| `IdUrl.IdToUrl` | TeamTalk/server/src/base/UtilPdu.cpp:299-318 | the digits are written from the end of the buffer without reaching its start |
| `IdUrl.UrlToId` | TeamTalk/server/src/base/UtilPdu.cpp:320-342 | the loop computes the id a text spells |
| `IdUrl.IdRoundTrip` | TeamTalk/server/src/base/UtilPdu.cpp:299-342 | urltoid(idtourl(id)) is id modulo 2^31 for every 32-bit id |
| `IdUrl.UrlIsInjective` | TeamTalk/server/src/base/UtilPdu.cpp:299-318 | two ids have the same url if and only if they agree modulo 2^31 |
| `IdUrl.SevenDigits` | TeamTalk/server/src/base/UtilPdu.cpp:299-318 | a 32-bit number has at most seven digits in base 36 |
| `SendList.MsgConn.AddToSendList` | TeamTalk/server/src/msg_server/MsgConn.cpp:917-927 | the message is last, and the list stays sorted |
| `SendList.MsgConn.DelFromSendList` | TeamTalk/server/src/msg_server/MsgConn.cpp:929-939 | the first matching message, if any, moves from pending to acknowledged |
| `SendList.MsgConn.OnTimer` | TeamTalk/server/src/msg_server/MsgConn.cpp:255-267 | the loop that stops early removes exactly what a full scan for entries of at least 15000 ms removes |
| `SendList.AnyRun` | TeamTalk/server/src/msg_server/MsgConn.cpp:255-267 | in every run the messages added are those of the events, the pending, acknowledged and missed ones are what the events make of them and make up the counters, and after a timer no expired message is pending |
| `SendList.Fate` | TeamTalk/server/src/msg_server/MsgConn.cpp:255-267 | a message whose ids are added once is pending until the first later event that is its acknowledgement or a timer that finds it 15000 ms old, and from then on acknowledged or missed as that event was, and never in two lists |

## Left out

- HttpExecute.HttpParser: callbacks always return zero and never pause the parser; an upgrade is an early exit of the call. The fields are one record, so `Dispatch` updates them through the same per-state functions that define the automaton; marks, batching, jumps and re-reading are its own.
- HttpParser in non-strict mode, its `data` pointer, `http_parser_pause` and the name tables for errors and methods.
- HttpLines.LineIsRead: folded lines, header lines ended by LF alone and lengths with spaces in them are read by the automaton but are not among the lines of the theorem.
- HttpMessages.ReceiveRequests: on the object the last request is no upgrade; after one the caller has to stop, and `HttpMessages.NothingAfterUpgrade` says where.
- HttpChunks.ChunkedBodyIsDecoded: chunk extensions and trailers are read by the automaton but not part of the encoder.
- HttpUrl.ParseUrl: buffers are shorter than 65536 bytes, which the 16-bit offsets need, no digit follows the buffer, and the result record starts out zero.
- SimpleBuffer.Buffer: sizes stay below 2^32 after growing by a quarter; the original's counters would wrap. A null source pointer, which only moves the offset, writes zero bytes here.
- ImConn.Conn: send and receive ticks, log lines, `OnWriteCompelete` and exceptions thrown by message handlers.
- Pdu.PduHeader: the signed readers and writers of `CByteStream`, and strings inside streams.
- OfflineFile.ReadHeader: `atoi` is defined on unsigned text below 2^31, so user ids and sizes are below it; text that fills its whole field would be read on into the next.
- OfflineTask.Task.DoRecvData: the memory behind received data is a parameter, long enough for the expected block; what a read past all memory does is left open.
- OfflineTask.Task: one task id names one file that does not exist before its upload; the manager's maps, timeouts and the deletion of tasks. Reads and writes of an open file succeed.
- OfflineTask.Task.DoPullFileRequest: the user id is handed to the function that opens the file, which builds the path from the task id alone (transfer_task.cpp:58-69), so it is a parameter that decides nothing.
- OnlineTask.Task: the forwarding of data between the two connections.
- ConnPool.CachePool: a signal wakes exactly one sleeper; more are covered by spurious wake-ups. `CDBPool` is the same protocol and is not written twice. The destructor.
- Workers.Worker: what a task does, and the end of the process.
- ProxyConn.Proxy: reading from the socket is in `ImConn`; `Close` is modelled on open connections; worker queues are one multiset here, from which any task may be answered next.
- RouteServ.Router: heartbeats and all messages.
- JsonParse.MatchFrom: at the end of the input nothing matches; the original then compares the last character read once more. Reading and printing of floating-point text is a codec given from outside.
- JsonText.Tag: the XML forms, arrays at the top level, `validate` and import.
- Base64.Encode: the test for inputs near the limit of the address space.
- EncDec.Encrypt: the rounds of AES and MD5; null pointers.
- SendList.MsgConn: the counters are those of one connection and do not wrap; the other duties of the timer.
- Protobuf bodies and the message handlers, MySQL, redis and curl, the file cache of msfs, logging, configuration, push notification clients, and the event loop over epoll, select or kqueue.

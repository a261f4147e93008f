# Hamlog, modelled and verified in Dafny

Hamlog is an amateur radio logbook. A C client library and a C++ server talk over a
hand-written protocol that looks like HTTP/1.1, with CSV payloads. This project models the
parts of both programs that decide what arrives at the other end, and proves what they are
for.

* **Requests, client to server.** `RequestPrinting` (the client's two-pass printer) feeds
  `RequestMachine`, the server's character-at-a-time parser, which `RequestGrammar` shows to
  decide a grammar. `RequestParsing` holds the server's objects that run the machine in
  place. `ClientRequests` is about the texts of the requests that the library makes.
  `SessionMachine` and `Sessions` are the session around it: reads of any size,
  pipelined requests, replies that are completed later.
* **Replies, server to client.** `ReplyPrinting` feeds `ReplyMachine`, which `ReplyGrammar`
  shows to decide a grammar, buffer sizes included; `ReplyParsing` holds the client's objects with their fixed buffers and moving pointer. `ConnectionMachine` and
  `Connections` are the read loop and the queue of handlers; `Lists` is the doubly linked
  list the queue lives in. `ReplyRoundTrip`, `ReplyDump`.
* **Both together.** `EndToEnd` joins one client connection to one server session.
* **MD5.** `Md5Block` (the unrolled compression function) and `Md5` (streaming, padding,
  hexadecimal form), against RFC 1321. `Md5Auxiliary` and `Md5Digests` pin the specification
  itself: bit by bit, and by digests that the RFC lists.
* **CSV.** `CsvScan`, `CsvParse` and `CsvAgreement` (three hand-written tokenizers),
  `CsvPrinting`, `CsvMerge`, `CsvColumns` (the client's printer and column merge), and
  `CallInfos`, which folds the merge over replies.
* **Containers.** `HashModel`, `HashTables` and `Signals`: the chained hash table on the heap
  and the discipline that keeps it a finite map.
* **Logbook and login.** `LogBookModel`, `LogBookAnswers`, `LogBookOwnership`, `LogBooks`,
  `LogBookText`: the responder that all users share, over an abstract database that says which
  column a name stands for and decides about each statement by the whole table.
  `LogBookDatabase`: one such database, which numbers rows. `Digests`, `DigestRoundTrip`,
  `Logins`: the digest header tokenizer, written twice, and the login exchange on top of it.

Code that updates things in place is modelled in place: classes with the source's fields,
arrays for its buffers, loops where it loops. Each such method is proved to compute a function
over values, and the properties are proved about those functions. `Chars`, `Headers` and
`Buffers` hold what several components share. Bytes are `char`; the bytes 128 to 255 are
negative as a signed C char, which the character classes and the hash function take into
account.

## What turned out

The code keeps most of what it promises, under conditions that its callers can check. Where
it does not, the model keeps the code's behaviour, and a lemma shows the failure or gives the
exact condition:

* Content that is empty, or only line ends, with a Content-Length never finishes
  (`EmptyContentHangs`, `OnlyCrContentHangs`).
* A client read that ends inside a reply closes the connection (`WholeRepliesDelivered`).
* Adding a key that is first in its chain stores it twice; removing can lose other keys
  (`AddRefinesIff`, `RemoveRefinesIff`; `NameAddedTwice`, `RemovalLosesOtherKey`).
* The last field of CSV text without a final newline picks up old bytes (`TailIsStale`), and a
  last row that ends in a separator is lost (`ClientResult`).
* Fields with quotes or separators do not survive the client's CSV printer or a fetched
  logbook (`ReadsBackIff`, `FetchedLogbookReadsIff`).
* An add request can give a row to another user, by a spelling of `user_id` that the responder
  does not set aside and the database understands (`OwnerIsRenamed`, `HarmlessIff`). As long as
  the others do not do that, a user's rows are safe from them (`OthersKeepRows`).
* Ids are numbered for all users together, so the answer to an insertion, and whether an id can
  be written, depend on other users' rows (`InsertionsInterfere`, `InsertionAnswersIff`,
  `NewIdIsRefusedIff`). Apart from what the database decides that way, users do not interfere
  (`UsersDoNotInterfere`); those who neither insert nor write ids do not at all
  (`SharingIsUnseen`).
* The two digest tokenizers disagree about repeated names (`CopiesAgreeIff`).
* A user name that is too long for the client's buffer cannot log in, and within six characters
  of the limit the server's behaviour is undefined (`LoginSucceedsIff`, `CutNameIsUndefined`).
* library/logbook.h:109-119 documents removal by a table with an "id" column; the server takes
  the ids themselves from the first line (`RemovalTakesBareIds`). The model follows the code.

Many of the small lemmas only isolate one fact, so that the proofs that use it can hide the
definitions it needs; they have no row below.

## Model

| member | source | states |
|---|---|---|
| `RequestMachine.FeedSplit` | server/requestparser.h:42-53 | chunk invariance: for every input and every cut of it, feeding the parts in turn leads to the machine, request and unread bytes that feeding the whole does, also when a part finishes a request or is refused |
| `RequestMachine.ParseChunkInvariant` | server/requestparser.h:42-53 | if a prefix neither finishes nor fails, the counts returned for the parts add up to the count for the whole, and a refused byte gives 0 for the whole too |
| `RequestMachine.Step` | server/requestparser.cpp:163-280 | in every reachable state that writes to the last header there is one, and the byte that finishes a request leaves the parser in `method_start` |
| `RequestMachine.Feed` | server/requestparser.h:42-53 | the same over the loop: what is left unread is a suffix of the input, a finished request used at least one byte, and a refused byte is the first of what is left |
| `RequestMachine.SelfDelimiting` | server/requestparser.cpp:36-280 | whatever bytes follow an accepted request, the parser stops at its end with the same request, and no longer string is accepted |
| `RequestGrammar.MachineDecidesGrammar` | server/requestparser.cpp:36-280 | the character machine accepts a byte string as a request if and only if the string is the rendering of a legal tree (request line, header lines with folded continuations, empty lines, body) that means the request |
| `RequestGrammar.RenderRuns` | server/requestparser.cpp:36-280 | grammar to machine, for any continuation of the input |
| `RequestGrammar.AcceptedIsRendered` | server/requestparser.cpp:36-280 | machine to grammar: a tree for every accepted string |
| `RequestGrammar.PushDigitsIsNumber` | server/requestparser.cpp:113-154 | a run of version digits gives the number they denote modulo 2^32 |
| `Chars.TokenChars` | server/requestparser.cpp:290-315 | which bytes methods and header names may hold: letters, digits and fifteen more |
| `Chars.ValueChars` | server/requestparser.cpp:286-288 | which bytes header values may hold: the printable ones, the blank and those that are not ASCII |
| `Chars.BlankChars` | server/requestparser.cpp:168-187 | which bytes continue a header line: blank and tab |
| `ClientRequests.GetIsAccepted` | library/logbook.c:57 | the text of a request without content, written out: the server accepts it as GET of that URI, version 1.1, if and only if the URI holds printable bytes, or bytes that are not ASCII, and no blank |
| `ClientRequests.PostIsAccepted` | library/logbook.c:90 | the text of a request with content: accepted as meant if and only if the URI is such and the content is not empty and has no carriage return |
| `ClientRequests.RegisterIsAccepted` | library/account.c:45-50 | the registration request: accepted as meant if and only if user name and password hold no control character |
| `ClientRequests.LoginIsAccepted` | library/account.c:140-196 | the answer to a login challenge: accepted as meant if and only if it holds no control character |
| `RequestParsing.RequestParser.HandleChar` | server/requestparser.cpp:36-280 | updating the state and the request in place is exactly one step of the machine; a refused byte changes nothing |
| `RequestParsing.RequestParser.Parse` | server/requestparser.h:42-53 | the iterator loop runs the machine over the buffer range and returns the number of bytes consumed, 0 for a refused byte |
| `RequestParsing.ServerRequest.GetHeader` | server/request.cpp:43-50 | the value of the first header of that name, the empty string exactly when there is none |
| `RequestParsing.ServerRequest.HasHeaderNamed` | server/request.cpp:35-41 | true exactly when some header has the name |
| `RequestPrinting.OutputFits` | library/request.c:77-111 | the second pass and its NUL fit the buffer of the first exactly when the content is shorter than 10^9, that is when its length has at most nine digits |
| `RequestPrinting.HamRequest.Measure` | library/request.c:77-94 | the loop of the first pass computes the specified size |
| `RequestPrinting.HamRequest.GetData` | library/request.c:77-111 | the second pass writes, through a moving pointer, the printed request and a NUL, inside the buffer |
| `RequestPrinting.HamRequest.AddHeader` | library/request.c:120-135 | the header goes behind the others |
| `RequestPrinting.RequestRoundTrip` | library/request.c:77-111 | the server's parser accepts the printed request as the method, URI, version 1.1, headers in order (with Content-Length when there is content) and content that were printed, if and only if the request is well formed: token method, URI without spaces and controls, token header names, control-free values, no header named Content-Length without content, content non-empty and free of CR |
| `RequestPrinting.PrintedRequestIsDelimited` | library/request.c:77-111 | the server consumes exactly the printed bytes, whatever follows them |
| `RequestPrinting.PrintIsInjective` | library/request.c:77-111 | well-formed requests that print alike are the same request |
| `RequestPrinting.EmptyContentHangs` | server/requestparser.cpp:251-255 | a request whose content is empty, or nothing but empty lines, never finishes: the parser is left waiting for content with the rest of the request read |
| `SessionMachine.RunRefines` | server/session.cpp:84-146 | refinement over every run: whatever the read sizes, and whichever replies are asynchronous, requests handed on and replies written are those of a reference that cuts the received byte stream into requests and knows nothing of buffers or suspension; between callbacks of a live session exactly one of outstanding read and pending reply holds, and `parsed_total` never passes `bytes` |
| `SessionMachine.HandleKeepsInv` | server/session.cpp:95-146 | each single event (read, read error, completion) keeps that relation to the bytes received |
| `SessionMachine.PullIsFeed` | server/requestparser.h:42-53 | the reference is the parser's own loop applied again after each request |
| `SessionMachine.PullSplit` | server/session.cpp:95-146 | the reference does not depend on how the stream is cut |
| `SessionMachine.SessionServesInOrder` | server/session.cpp:84-146 | for every list of accepted requests, every chunking and every choice of asynchronous replies: the responder is always handed a beginning of exactly that list, the replies written are those to its first requests in order, and when all bytes have arrived and nothing is pending every request has been answered |
| `SessionMachine.CompletionsDrain` | server/session.cpp:84-93 | suspension ends: at most one more completion than there are unread bytes brings the session back to an outstanding read |
| `SessionMachine.StoppedStaysSilent` | server/session.cpp:117-146 | after a refused byte the session is stopped but a read is outstanding: the only possible event is its failure, which stops the session a second time, and nothing more is handed on or written |
| `Sessions.Session.ParseOnce` | server/session.cpp:114-141 | one turn of the loop in place is one pass of the session machine |
| `Sessions.Session.HandleRead` | server/session.cpp:95-146 | the whole callback, for new bytes and for a completed reply, is the machine's loop |
| `Sessions.Session.DeliverRead` | server/session.cpp:95-146 | a completed read of at most 8192 bytes is the machine's read event |
| `Sessions.Session.DeliverReadError` | server/session.cpp:95-99 | a failed read stops the session and issues no other |
| `Sessions.Session.SendAsyncReply` | server/session.cpp:84-93 | completing the pending reply writes it and goes on with the rest of the buffer |
| `ReplyPrinting.StripCrMeans` | server/reply.cpp:95-112 | stripping takes exactly the carriage returns: it shortens the content if and only if it has one |
| `ReplyPrinting.StatusLineText` | server/reply.cpp:60-91 | the status line of each status, written out |
| `ReplyPrinting.OkReplyText` | server/reply.cpp:60-112 | the text of a successful reply, written out |
| `ReplyPrinting.Reply.ToString` | server/reply.cpp:60-112 | printing in place gives the specified text, and leaves the reply with the content stripped |
| `ReplyPrinting.Reply.constructor` | server/reply.cpp:30-37 | a new reply has Content-Type and Content-Length first, whatever is added later |
| `ReplyPrinting.Reply.AddHeader` | server/reply.h:81-83 | an added header goes behind those, in order |
| `ReplyMachine.FeedSplit` | library/parser.c:335-347 | chunk invariance of the client's machine, crashes included |
| `ReplyMachine.LeadingNewline` | library/parser.c:80-91 | a CR or LF before a reply changes nothing, which is what repairs the count that is one too small |
| `ReplyMachine.FeedKeepsInv` | library/parser.c:78-333 | over every run: headers stored are legal and fitted the 512-byte buffers, content holds no CR, the status is at most 999, and the pointer is in the buffer the state writes to |
| `ReplyMachine.Returned` | library/parser.c:335-347 | the returned count never passes the input; it is one less than was consumed when a reply finishes |
| `ReplyGrammar.MachineDecidesGrammar` | library/parser.c:78-333 | the client's parser finishes a reply on the last byte of a text, as a given reply, if and only if the text is the rendering of a legal tree that means it: line ends to skip, version, three-digit status, a phrase without digits, header lines that fit the buffers, lines of blanks before the first header only, and content exactly when one is announced |
| `ReplyGrammar.RenderRuns` | library/parser.c:78-333 | from the grammar to the machine, for any bytes that follow |
| `ReplyGrammar.FinishedIsRendered` | library/parser.c:78-333 | from a finishing run to a legal tree |
| `ReplyMachine.HeaderIsFirst` | library/reply.c:153-163 | the value found is that of the first header of the name, and none is found only when there is none |
| `ReplyParsing.HamParser.Consume` | library/parser.c:78-333 | moving the pointer through the fixed buffers is one step of the machine, for every byte on which the machine is defined |
| `ReplyParsing.HamParser.ConsumeValue` | library/parser.c:266-280 | a completed header is copied out of the two buffers as the C strings they hold |
| `ReplyParsing.HamParser.EndHeaders` | library/parser.c:310-322 | content is awaited exactly when Content-Length is present and not "0" |
| `ReplyParsing.HamParser.Parse` | library/parser.c:335-347 | the loop runs the machine and returns its count; a refused byte resets the parser |
| `ReplyParsing.HamReply.FindHeader` | library/reply.c:153-163 | the first header of that name |
| `ReplyParsing.HamReply.GetContent` | library/reply.c:169-171 | the content buffer read as a C string: what was received up to its first NUL |
| `ReplyRoundTrip.ReplyRoundTrips` | server/reply.cpp:60-112 | the client finishes exactly on the last byte of the printed reply with the status, headers and content that were meant, if and only if the reply is readable: legal headers that fit 512-byte buffers, content free of CR and NUL and shorter than 65535 (empty or not) |
| `ReplyRoundTrip.PrintedReplyIsRead` | library/parser.c:78-333 | the same for any bytes that follow the reply |
| `ReplyRoundTrip.FinishedReplyIsBounded` | library/parser.c:162-188 | whatever bytes were read, a finished reply has status at most 999, legal headers that fit, and CR-free content shorter than 65535 |
| `ReplyRoundTrip.OnlyCrContentHangs` | server/reply.cpp:95-112 | content of carriage returns alone is announced and not sent: the client is left waiting for content |
| `ReplyDump.DumpFits` | library/reply.c:95-127 | the dump and its NUL fit the measured buffer exactly when the status is below 1000 |
| `ReplyDump.FinishedReplyDumps` | library/reply.c:95-127 | so dumping a reply that came from the parser stays inside its buffer, whatever was received |
| `ReplyDump.DumpText` | library/reply.c:129-139 | the dump of a reply with one header, written out |
| `ReplyDump.Measure` | library/reply.c:95-107 | the size pass |
| `ReplyDump.GetDump` | library/reply.c:95-127 | the printing pass writes the dump and a NUL inside the buffer |
| `Lists.WithoutCutsFirst` | library/list.c:101-127 | removal deletes the first occurrence and nothing else |
| `Lists.HamList.InsertFirst` | library/list.c:63-80 | on the heap, with forward and backward links inverse and both ends right: prepends |
| `Lists.HamList.InsertLast` | library/list.c:82-99 | appends |
| `Lists.HamList.Unlink` | library/list.c:101-127 | the pointer surgery at any position takes just that node out of the chain |
| `Lists.HamList.Remove` | library/list.c:101-127 | the contents lose the first occurrence of the data; nothing happens when there is none |
| `Lists.HamList.PopFirst` | library/list.c:129-135 | returns and deletes index 0 even when its data occurs again |
| `Lists.HamList.GetFirst` | library/list.c:137-141 | the first element, or nothing |
| `Lists.HamList.GetLast` | library/list.c:143-147 | the last element, or nothing |
| `Lists.HamList.Destroy` | library/list.c:40-57 | every element is freed once, in order |
| `ConnectionMachine.RepliesMatchRequests` | library/connection.c:104-117 | over every run on one connection, handlers that send further requests while running included: the i-th reply goes to the handler queued with the i-th request and the queue holds the requests not yet answered, if and only if no reply ever came when nothing was waiting |
| `ConnectionMachine.RunKeepsInv` | library/connection.c:75-126 | handlers answered and handlers waiting are always the requests sent, in order, and a live connection's parser is between replies |
| `ConnectionMachine.EveryRequestIsSent` | library/connection.c:260-279 | over every run that does not lose the connection, every request made, from outside or by a handler, has been sent once, and nothing else |
| `ConnectionMachine.WholeRepliesDelivered` | library/connection.c:89-126 | a read of k whole replies and a beginning of another delivers exactly the k replies in order; the connection survives if and only if nothing follows them, except for a lone first byte, which is dropped unread |
| `ConnectionMachine.LoopStep` | library/connection.c:93-118 | one turn over a whole reply stops one byte short, and the line feed left over is skipped by the next turn |
| `ConnectionMachine.FinishesOnLineFeed` | library/parser.c:310-329 | a reply only ever finishes on a line feed |
| `Connections.Connection.Send` | library/connection.c:260-279 | queues the handler behind the others, unless the connection is closed |
| `Connections.Connection.DispatchReply` | library/connection.c:104-117 | the front handler leaves the queue before it runs on the reply |
| `Connections.Connection.FinishReply` | library/connection.c:104-118 | delivers and starts a fresh reply object |
| `Connections.Connection.ReadOnce` | library/connection.c:93-118 | one turn of the read loop, over parser, reply and list objects |
| `Connections.Connection.ReadData` | library/connection.c:75-126 | the read loop in place is the machine's |
| `EndToEnd.EveryCallIsAnsweredInOrder` | library/connection.c:75-126 | client and server together, over every run: however requests are cut into reads, whichever replies are asynchronous, however many whole replies a client read holds, and whatever handlers send while they run, the i-th reply delivered is the responder's reply to the i-th request and goes to its handler; when all has arrived and nothing is pending, every request is answered and no handler waits; the requests sent are those called for, from outside and by handlers, each once |
| `EndToEnd.RunKeepsInv` | server/session.cpp:84-146 | the invariant behind it: bytes on the wire, session and connection agree after every event |
| `Md5Auxiliary.ConditionalBits` | library/md5.c:184 | in each bit position F is "if X then Y else Z", as section 3.4 of RFC 1321 says |
| `Md5Auxiliary.OtherConditionalBits` | library/md5.c:210 | G is "if Z then X else Y" |
| `Md5Auxiliary.ParityBits` | library/md5.c:236 | H is the parity of the three bits |
| `Md5Auxiliary.MixedBits` | library/md5.c:262 | I is Y xor (X or not Z) |
| `Md5Auxiliary.RotationMovesUp` | library/md5.c:179 | rotating by n moves the low 32 - n bits n places up |
| `Md5Auxiliary.RotationMovesAround` | library/md5.c:179 | and the top n bits around to the low end |
| `Md5Digests.WordIsLittleEndian` | library/md5.c:168-173 | writing a word low-order byte first undoes reading it from four bytes |
| `Md5Digests.InitialBytes` | library/md5.c:298-301 | the initial registers are 01 23 45 67, 89 ab cd ef, fe dc ba 98, 76 54 32 10, low-order bytes first |
| `Md5Digests.DigestOfEmpty` | library/md5.c:294-363 | the digest of the empty message is d41d8cd98f00b204e9800998ecf8427e, as appendix A.5 of RFC 1321 lists it |
| `Md5Digests.DigestOfAbc` | library/md5.c:294-363 | the digest of "abc" is 900150983cd24fb0d6963f7d28e17f72 |
| `Md5Digests.HexDigits` | library/md5.c:387-391 | the hexadecimal form has the two digits of each byte in order, the high one first |
| `Md5Block.FourSets` | library/md5.c:185-282 | four uses of the step macro with rotated argument positions are four operations of the loop in section 3.4 of RFC 1321, at any position and for any state |
| `Md5Block.Round1` | library/md5.c:181-204 | round 1 with its constants written out is operations 1 to 16 |
| `Md5Block.Round2` | library/md5.c:207-230 | round 2 (words 5i+1 mod 16) is operations 17 to 32 |
| `Md5Block.Round3` | library/md5.c:233-256 | round 3 (words 3i+5 mod 16) is operations 33 to 48 |
| `Md5Block.Round4` | library/md5.c:259-282 | round 4 (words 7i mod 16) is operations 49 to 64 |
| `Md5.State.Process` | library/md5.c:134-292 | the unrolled block function is the compression function of the specification |
| `Md5.State.Append` | library/md5.c:304-340 | after any append, registers, bit count and the live part of the buffer are those of the whole message so far: chunk invariance, with stale bytes left unspecified |
| `Md5.State.Fill` | library/md5.c:321-331 | the initial partial block |
| `Md5.State.WholeBlocks` | library/md5.c:333-335 | the loop over full blocks |
| `Md5.CountsAdd` | library/md5.c:310-319 | the carry between the two count words keeps the bit count modulo 2^64 |
| `Md5.OffsetIs` | library/md5.c:309-309 | the low word alone gives the position in the block and the padding |
| `Md5.State.LengthBytes` | library/md5.c:354-356 | the saved eight bytes are the little-endian bit count modulo 2^64 |
| `Md5.State.Finish` | library/md5.c:342-363 | finishing gives the digest of the message as sections 3.1 to 3.5 of RFC 1321 define it, the pad length being in 1..64 |
| `Md5.ZeroCount` | library/md5.c:358-358 | the padding always lands on 56 modulo 64 |
| `Md5.PaddingIsMinimal` | library/md5.c:358-358 | and is the shortest that does |
| `Md5.DigestOfChunks` | library/md5.c:294-363 | any way of cutting a message into appends gives the digest of the whole |
| `Md5.GetHashHex` | server/md5.cpp:382-400 | the hexadecimal digest, 32 characters |
| `Md5.HexIsInjective` | library/md5.c:387-391 | the hexadecimal form loses nothing |
| `HashModel.LookupIsExact` | library/hashtable.c:169-195 | in a table that represents a finite map, lookup is the map's |
| `HashModel.HashStep` | library/hashtable.c:30-44 | the bucket of a key: in arithmetic modulo 256 the hash multiplies by 63 and adds the next byte, signed or not |
| `HashModel.AddRefinesIff` | library/hashtable.c:79-131 | adding is the map's update if and only if the key is not the first of its chain; when it is, the old value stays visible |
| `HashModel.NameAddedTwice` | library/hashtable.c:106-128 | a name added twice to an empty table is there twice, counted twice, and looks up its old value |
| `HashModel.RemoveRefinesIff` | library/hashtable.c:133-167 | removing is the map's removal if and only if the key is absent, first in its chain, or at least third and right behind a key of another length; otherwise some other key of the map is found no more |
| `HashModel.RemovalLosesOtherKey` | library/hashtable.c:142-164 | "A" and "ab" collide, and removing "ab" from the table that holds both loses "A" |
| `HashModel.ToListIsPermutation` | library/hashtable.c:218-232 | listing gives each value of the map as often as it is a value |
| `HashModel.StepConserves` | library/hashtable.c:79-167 | a guarded operation keeps the map and conserves data: what was given to the table is in it or has been freed, once |
| `HashModel.RunRefinesMap` | library/hashtable.c:79-232 | over every run that keeps to the guards the table is the map the same operations make, and data are conserved |
| `HashModel.EverythingIsFreedOnce` | library/hashtable.c:63-73 | destroying the table after such a run has freed every value ever added, exactly once |
| `HashTables.HashTable.Lookup` | library/hashtable.c:169-195 | the nested loops over the chain find the first item with the key |
| `HashTables.HashTable.BeforeKey` | library/hashtable.c:106-126 | the nested loops of adding, which compare successors only |
| `HashTables.HashTable.Add` | library/hashtable.c:79-131 | relinking in place is the model's addition |
| `HashTables.HashTable.Locate` | library/hashtable.c:142-165 | the nested loops of removal, with the predecessor they end up with |
| `HashTables.HashTable.Remove` | library/hashtable.c:133-167 | relinking in place is the model's removal, found or not |
| `HashTables.HashTable.ToList` | library/hashtable.c:218-232 | walks all chains in bucket order |
| `HashTables.HashTable.Destroy` | library/hashtable.c:63-73 | frees exactly the listed values, in order |
| `Signals.RegisterRefines` | library/signals.c:49-61 | adding only when the name is absent keeps the table a map |
| `Signals.RegistrationsKeepFirst` | library/signals.c:49-61 | over every run of registrations, with any repeats and collisions, the table maps each name to the list it was first registered with, and nothing is freed |
| `Signals.RegisterSignal` | library/signals.c:49-61 | the code's lookup and guarded addition |
| `CsvScan.ParseLogBook` | server/responders/logbook.cpp:70-109 | the look-ahead loop of the server computes what a one-character automaton reads, the field in progress dropped |
| `CsvScan.Tokenize` | ui/qt/qtlogbook.cpp:26-69 | the graphical client's loop computes the same, a non-empty field in progress kept |
| `CsvScan.CharactersRead` | server/responders/logbook.cpp:79-104 | what every character does between two others: ';' separates fields, a line end separates rows, a quote opens quotes, and all others become part of the field |
| `CsvParse.HamCsvParse` | library/parser.c:361-418 | the client library's loop over a stack buffer of 65535 bytes with arbitrary contents: its rows, or undefined behaviour, exactly as the buffered automaton says |
| `CsvParse.BufferRunsScan` | library/parser.c:361-418 | as long as it does not overrun, the buffered automaton reads what the plain one does |
| `CsvAgreement.TokenizersAgreeIff` | library/parser.c:361-418 | on any text with a separator outside quotes and fields that fit, the three tokenizers give the same rows, up to the empty last row of the two C++ ones, if and only if the text ends in a newline outside quotes, but for at most two quotes behind it |
| `CsvAgreement.QuotedIffOdd` | server/responders/logbook.cpp:79-104 | a position is inside quotes exactly when an odd number of quotes is in front of it, doubled quotes included |
| `CsvAgreement.NewlineEndedTextsAgree` | server/responders/logbook.cpp:70-109 | every text that ends in a newline outside quotes is such a text, and the client's rows do not depend on what its buffer held |
| `CsvAgreement.ClientResult` | library/parser.c:404-417 | what the client's tokenizer returns for any text: a row ending in a separator is lost, and an unfinished field runs on into what earlier fields left in the buffer |
| `CsvAgreement.TailIsStale` | library/parser.c:404-411 | a last line without newline comes back with the end of the field before it glued on, unless the two are equally long |
| `CsvAgreement.StaleExample` | library/parser.c:404-411 | "abc\nde" reads as "abc" and "dec" |
| `CsvAgreement.QtKeepsTail` | ui/qt/qtlogbook.cpp:64-66 | the two C++ tokenizers differ exactly when a field is left in progress |
| `CsvPrinting.ScanInvertsQuoting` | server/responders/logbook.cpp:70-109 | the automaton gives back every table of non-empty rows from its fully quoted form (section 2 of RFC 4180, rules 5 to 7) |
| `CsvPrinting.QuotingRoundTrip` | library/parser.c:361-418 | so do all three tokenizers, the client's if and only if every field leaves room for its NUL in the buffer, whatever the buffer held |
| `CsvMerge.Measure` | library/parser.c:420-435 | the counting pass gives the printed length and one for the NUL |
| `CsvMerge.CsvFromList` | library/parser.c:437-455 | the printing pass fills the counted buffer exactly, the NUL in its last cell |
| `CsvMerge.ReadsBackIff` | library/parser.c:420-455 | what the client prints reads back, each row with one more empty field, if and only if no field holds a quote or a separator |
| `CsvMerge.ScanWeight` | library/parser.c:361-418 | reading never makes anything: characters and field ends read are at most the characters of the text, fewer when a quote is met outside quotes |
| `CsvColumns.HamCsvMerge` | library/parser.c:457-483 | the loops that extend the lines of the first table in place compute the row-wise merge of the two parsed texts, printed |
| `CsvColumns.PlainTextIsTable` | library/parser.c:361-418 | lines without quotes, the last one ended, that fit a reply, read as the same rows whatever the buffer held |
| `CsvColumns.MergeIsTable` | library/parser.c:457-483 | reading a merge back gives row i of both tables and an empty field as far as both go, and row i of the first and an empty field after that; the result can be merged again |
| `CsvColumns.MergeIsNulFree` | library/parser.c:457-483 | a merge of C strings is a C string |
| `CsvColumns.GatherKeepsColumns` | library/callinfo.c:47-58 | under any number of folded merges, in every row that all tables have, what stands under a header is what stood under it in the first table that has it |
| `CallInfos.CallInfo.Fetch` | library/callinfo.c:76-98 | the requests counted are as many as the modules that give call information; on a live connection they go to the URIs at just the positions of these modules, in order, and on a closed one none goes out |
| `CallInfos.Givers` | library/callinfo.c:84-93 | those positions: strictly increasing, and exactly the ones whose module gives call information |
| `CallInfos.GiversAreCounted` | library/callinfo.c:84-93 | as many as there are such modules |
| `CallInfos.CallInfo.Response` | library/callinfo.c:43-74 | one reply in place: count down, merge, fire on the last |
| `CallInfos.FiresOnceAtTheEnd` | library/callinfo.c:61-73 | whatever is replied, nothing fires before the last reply to a counted request, and that one fires handler and signal once each if there is data; without modules, or on a closed connection, nothing ever fires |
| `CallInfos.GathersTables` | library/callinfo.c:43-58 | the data gathered reads as the left fold of the merges over the tables in the replies with status 200, in reply order |
| `CallInfos.HandlerSeesAlignedColumns` | library/callinfo.c:43-98 | scatter, merges and gather together: after as many replies as there are modules that give call information, the handler has been given, once, a text in which every header stands over the value of the first table that has it, in each row that all tables share |
| `LogBookOwnership.UsersDoNotInterfere` | server/responders/logbook.cpp:47-196 | for every interleaving of requests from any users on the shared responder, of which the others' give no row away by their first line: as far as the database decides about the user's statements by the user's own rows (about all of them, or only about those that make no row and write no id, in which case the user's requests must be such), what the user is answered and the rows the user ends up with are what they would be had nobody else sent anything, whoever else's rows there were; first lines are lists of names |
| `LogBookOwnership.OthersKeepRows` | server/responders/logbook.cpp:111-196 | while a user sends nothing and the others give no row away by a first line of names, no row of the user is changed, deleted or given away and the user is given none, whatever the database decides by whatever it looks at; no filter survives a request |
| `LogBookModel.HandleAlike` | server/responders/logbook.cpp:174-196 | one request of a user, with names in its first line: as far as the database decides by the user's own rows, so are the answer and the user's rows decided, and no fetch filter is left |
| `LogBookOwnership.HandleOthers` | server/responders/logbook.cpp:174-196 | one request of anybody else that gives no row away by its first line leaves the user's rows as they are, whatever the database decides |
| `LogBookOwnership.HarmlessIff` | server/responders/logbook.cpp:127-154 | for the first line of an add request, a list of names, over rows that have ids: nobody else's rows can change, whatever lines follow, whoever sends them and whatever the database decides, if and only if the line does not name the id, or has an unknown name, or has no name but the exact user_id that stands for the owner column |
| `LogBookAnswers.FetchAnswers` | server/responders/logbook.cpp:174-193 | a fetch, of everything or of one call, is answered with the titles and the lines of exactly the rows that are the user's and have the call, in the order of the table, and changes nothing |
| `LogBookAnswers.UnhandledIff` | server/responders/logbook.cpp:174-196 | a request is left to other responders, without any effect, if and only if its URI is none of the four kinds |
| `LogBookAnswers.RemovalAnswers` | server/responders/logbook.cpp:161-172 | a removal is answered "Removed.", leaves the user's rows with other ids in order, and everybody else's rows |
| `LogBookAnswers.AddStopsAtFirstRefused` | server/responders/logbook.cpp:111-159 | an add request takes its lines in order, from a cleared record: those before the first refused one take effect, that one answers, those behind it are not looked at; when none is refused, the last line that is not empty answers |
| `LogBookDatabase.OwnerIsRenamed` | server/responders/logbook.cpp:143-153 | on a database that ignores the case of letters, user 5 gives row 12 to user 7 with the add request `id;USER_ID` / `12;7` and is answered `12;5` |
| `LogBookDatabase.FoldCaseIsLawful` | server/storagebackends/sqlite3backend.cpp:250-281 | ignoring case is a way for a database to understand names that the results cover |
| `LogBookDatabase.NumberingAgrees` | server/responders/logbook_table.h:26-27 | a database that gives each new row the number after the highest one, and refuses ids that are taken, gives every row an id and decides about updates that write no id by nothing in the table |
| `LogBookDatabase.SharingIsUnseen` | server/responders/logbook.cpp:47-196 | on that database, a user who only fetches, removes and updates without writing ids is answered as if alone, whatever the others insert, change and remove |
| `LogBookDatabase.InsertionAnswersIff` | server/responders/logbook.cpp:132-140 | an insertion is answered alike over two tables if and only if the highest numbers in them are the same, whoever has those rows |
| `LogBookDatabase.InsertionsInterfere` | server/responders/logbook.cpp:132-140 | after user 7 has inserted into an empty logbook, user 5 is answered `2;5` for an insertion that alone is answered `1;5` |
| `LogBookDatabase.NewIdIsRefusedIff` | server/responders/logbook.cpp:143-154 | an update that writes another number into the id of a row, by a spelling the responder does not set aside, is refused if and only if the user has the row and anybody has a row of that number |
| `LogBookModel.FetchIsExact` | server/responders/logbook.cpp:47-68 | sending the rows that meet a filter returns the user's, all of them and nobody else's, and clears the filter |
| `LogBookModel.AddRowEffect` | server/responders/logbook.cpp:121-155 | under a first line of names, an accepted line with id -1 puts one row behind the others; any other id writes into the user's rows with that id and no others; the columns written are exactly those that the names left in the record stand for, each with the value of such a name; a rejected line changes no row |
| `LogBookModel.RemoveIdsKeepsRest` | server/responders/logbook.cpp:161-172 | removing ids leaves the user's rows with other ids, in order |
| `LogBooks.LogBook.Send` | server/responders/logbook.cpp:47-68 | printing with the last separator of each row erased |
| `LogBooks.LogBook.Add` | server/responders/logbook.cpp:111-159 | the loop over the lines, ended by the first bad one |
| `LogBooks.LogBook.AddOne` | server/responders/logbook.cpp:127-154 | filling the shared record, then inserting or updating |
| `LogBooks.LogBook.RemoveAll` | server/responders/logbook.cpp:161-172 | the loop over the ids with the shared query |
| `LogBooks.LogBook.HandleRequest` | server/responders/logbook.cpp:174-196 | dispatch on the URI |
| `LogBooks.StorageBackend.SelectRows` | server/storagebackend.h:60-81 | the rows that satisfy the conjunction of exact column values, in order |
| `LogBookText.FetchedLogbookReadsIff` | ui/qt/qtlogbook.cpp:26-69 | the graphical client reads a fetched logbook as its titles and rows if and only if no value holds a quote or a separator |
| `LogBookText.FetchedLogbookIsRefused` | server/responders/logbook.cpp:56-64 | the rows have a column more than the first line names, so the responder refuses its own text |
| `LogBookText.RemovalTakesBareIds` | server/responders/logbook.cpp:161-172 | a table with an "id" column, which library/logbook.h:109-119 asks for, removes nothing; the bare id on a line removes exactly the user's rows with that id |
| `Digests.NextToken` | library/account.c:80-125 | one turn of the cursor loop always moves the cursor and reads the token in front |
| `Digests.ClientParse` | library/account.c:74-130 | the loop ends on every string and leaves the pairs in the list, last first |
| `Digests.ServerParse` | server/responders/login.cpp:41-94 | the same loop into a map; a name without '=' is undefined behaviour |
| `DigestRoundTrip.DigestRoundTrips` | library/account.c:74-130 | the joined name="value" text (section 3.2 of RFC 2617) gives back the pairs, inner commas kept and any gap after each comma skipped, if and only if no value has anything at its ends to trim |
| `DigestRoundTrip.TokensComeApart` | library/account.c:80-125 | tokens joined by commas come out again one by one, in order |
| `Digests.TrimMeans` | library/account.c:101-113 | trimming takes all blanks, line ends and quotes off the front of a value, and these and commas off the end, and nothing else |
| `Digests.RestMeans` | library/account.c:121-127 | behind the comma that ends a token, blanks, commas and line ends are skipped up to the first other character |
| `DigestRoundTrip.CopiesAgreeIff` | server/responders/login.cpp:41-94 | about a text printed from fields, client and server agree on a name if and only if no field has it or the first and the last field of that name carry the same trimmed value |
| `DigestRoundTrip.CopiesTake` | server/responders/login.cpp:41-94 | on any text in which every name has a value, the client ends up with the first value of a name and the server with the last, so they agree when names are distinct |
| `DigestRoundTrip.ClientTakesFirst` | library/account.c:142-158 | the client's walk over its list ends with the first value of a name |
| `DigestRoundTrip.ServerTakesLast` | server/responders/login.cpp:41-94 | the server's map is defined exactly when every name has a value, and holds the last value of each |
| `Logins.ChallengeIsRead` | server/responders/login.cpp:104-117 | the client reads realm, nonce and opaque from the challenge as they were meant |
| `Logins.AnswerIsRead` | library/account.c:177-189 | as long as "opaque=" has not been cut off, the server reads all seven fields from the answer, one of them unquoted, user name and response as they were meant |
| `Logins.LoginSucceedsIff` | server/responders/login.cpp:119-170 | for every length: a login succeeds, as that user, if and only if user name, realm and the client's nonce have at most 401 characters together, so that "opaque=" survives in the client's 512-byte buffer, the user is known, and the secret kept for the user answers the challenge as the one made from the password does |
| `Logins.AnswerSucceedsIff` | server/responders/login.cpp:119-170 | the same for an answer that was made for another server's challenge |
| `Logins.AcceptedAnswerIsGenuine` | server/responders/login.cpp:149-155 | whoever registered since: if an answer logs a user in, it was made with the registered password and for the current nonce, or one of two pairs of texts that can be written down collides under MD5 |
| `Logins.CutNameIsUndefined` | library/account.c:177-189 | one to six characters more, and the cut leaves a name without '=', which the server makes into a string from a null pointer |
| `Logins.RegisteredUserLogsIn` | server/responders/register.cpp:39-60 | whoever registered logs in with the same password, whoever else registered since, if and only if the name is short enough for that |

## Left out

- Sockets, Boost.Asio, Qt, dlopen, log4cxx, TinyXML, hamlib and SQLite: reads are chunks of bytes, writes an appended log, the responder a function that also chooses between a synchronous and an asynchronous reply, storage a sequence of rows.
- Allocation failure and object lifetimes: malloc never fails, and freed memory is only logged where the source hands data to a free function.
- The abstract contract of asynchronous replies is that each is completed once, after the request was handled; server/responders/qrz.cpp, which re-enters the session, is not part of this model.
- Reads of the client are chunks of any length at least 1; the NUL that the code writes behind a full 65535-byte read and a read that returns -1 are not modelled.
- A connection is not reconnected: the model does not carry handlers or parser state over from an earlier connection.
- `ReplyParsing.HamParser.Parse`: requires that the machine does not crash on the input, that is that no write goes through a null pointer or past a buffer; `ReplyMachine.Undefined` marks those inputs (a header line that starts with a blank before any header, names and values of 512 bytes or more, content of 65535 bytes or more), and no behaviour is claimed for them.
- `RequestPrinting.HamRequest.GetData`: requires content shorter than 10^9; past that length the code writes behind its buffer (`OutputFits`), and sizes that overflow a C int are not modelled.
- `Md5.State.Append`: one append is shorter than 2^31 - 64 bytes, past which the position arithmetic overflows; the shift that makes a bit count of the length is on a signed int and overflows from 2^28 bytes on, which is taken to wrap; the total length is not bounded.
- MD5's 64 constants are listed as in RFC 1321 and not derived from the sine function; the two digests use each of them.
- `Logins.AcceptedAnswerIsGenuine`: about strings whose characters stand for bytes, and about challenges of the same realm; with other realms the colons in "user:realm:password" can be read in more than one way.
- `Sessions.Session.HandleRead`: the loop body is a method of its own, and the error branch of the read callback is the model's read error event.
- `HashTables.HashTable.Destroy`: the table cannot be used afterwards; freeing keys and items is not modelled, only the data given to the free function.
- ham_hash_table_get_keys, which writes through the wrong index, and ham_signals_unregister_handler, which does not advance.
- Emitting signals and registering handlers: list walks without further content.
- `CsvParse.HamCsvParse`: the lists it builds are sequences, as are those of the merge and the digest tokenizer; `Lists` proves the list itself, and sharing of field pointers between merged lines is not modelled.
- `CsvColumns.HamCsvMerge`: both tokenizer calls use the same stack memory; what the first leaves there for the second is any contents.
- `LogBookModel.Handle`: values are compared exactly, while SQLite converts numeric text; queries that the database fails on after it accepted them are not modelled for fetch and remove.
- `LogBookModel.Accepted`: the database's decision about a statement is any function of the table, the statement, the line and one arbitrary number; SQLite's own rules about values, ids and names that stand for one column are not modelled beyond `LogBookDatabase.Numbering`, whose ids are natural numbers in their shortest form.
- `LogBookOwnership.UsersDoNotInterfere`: a first line of an add request, the user's own or another's, whose fields are more than names (letters, digits, underscores and blanks) reaches SQL as part of the statement; nothing is claimed about such requests.
- `LogBookOwnership.HarmlessIff`: first lines that are lists of names only, for the same reason.
- `LogBookModel.HandleAlike`: first lines that are lists of names only, for the same reason.
- `LogBookModel.AddRowEffect`: first lines that are lists of names only, for the same reason.
- `Logins.Answer`: a challenge without qop, realm or nonce is not answered in the model; library/account.c:137 initialises only opaque and reads the other three uninitialised.
- Setting a session's authenticated user, and the headers of the login exchange on the wire; no claim is made about the strength of MD5 or of the login scheme.
- Header lookups of the server's reply: the same two loops as those of the request.
- `RequestMachine.Step`: version numbers wrap modulo 2^32 as unsigned integers do; method, URI, header and content lengths are unbounded.
- DXCC prefixes, module listing, configuration, DXCluster text and SQL text: easy or bound to input and output.

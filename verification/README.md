# Linux_study in Dafny: protocols, byte streams and tables

A Dafny model of the parts of the repository that have something to prove:

- **Producer and consumer** (`ListNode`, `CondProtocol`, `CondRuns`, `ThreadSystem`): the
  sentinel-headed list on the heap, and any number of producer and consumer threads over one mutex
  and one condition variable, interleaved one statement at a time, with spurious wakeups and signals
  that wake more than one sleeper. `CondRuns` says what the runs deliver, `ThreadSystem` runs the
  same steps on the heap list.
- **Semaphore ring** (`RingProtocol`, `DataPool`): one writer and one reader, every statement of the
  two methods a step; a class over an array runs the steps.
- **HTTP** (`CStrings`, `HttpLines`, `HttpHeader`, `HttpPost`, `RequestLine`, `CgiRelay`,
  `CgiRequest`): the byte-at-a-time line reader, header draining, POST framing, the request-line
  parser, and the two processes and two bounded pipes of a CGI request.
- **Poll loop** (`PollTable`, `PollService`, `PollServer`): the table that is scanned by index while
  entries are appended to it and overwritten by its last one, and the map from clients to addresses
  that it stands for.
- **Crawler** (`Crawler`): the worklist search with an arbitrary `pop`.
- **Word tricks** (`Arithmetic`, `Numerals`, `Korr`, `Alignment`, `TrailingSpace`, `Timespec`):
  portable and x86 integer codecs, trailing-space scans by words, deadline arithmetic.
- **Form to SQL** (`SqlValues`): the query string turned into a value list.

Code that changes state is a class or a method with loops, proved against a function of the old
state; threads, processes and rounds are step systems whose runs are schedules, and the main results
hold of every schedule. What a step function or a specification computes is stated once more without
it: by bytes (`OneLf`), by a map (`Service`), by walks, by counts of values drawn and popped.

Check everything with `dafny verify dfyconfig.toml`.

## Results that are not what one might expect

- `clear_header` takes a header line whose length is a non-zero multiple of 1023 for the end of the
  header. `ClearHeaderLeavesBody` gives the exact condition, `FalseEmptyLine` an input.
- The header loop of a POST does the same, and it takes a "Content-Length: " at byte 1023, 2046, ... of
  a long line for a declaration. `FramingIff` and `LengthIff` say exactly when it finds the length and
  the body, `FalseEmptyLineInPost` and `HiddenLength` are inputs on which it does not.
- The body pump ignores the result of `recv`: past the end of the stream it repeats the last byte
  (`PumpedMeaning`), so the program's input is a prefix of the body exactly when the body is as long
  as announced (`PumpedIsPrefixIff`, `PostFraming`). `ShortBody` shows one that is not.
- The CGI relay can block for ever (`BlocksForEver`, `BothPipesFull`) or die of SIGPIPE
  (`DiesOfSigpipe`). `CompletesIffCompatible` says exactly for which programs it never does.
- A poll server whose listener reports a hang-up and neither data nor an error drops its listener like
  a client, and never gets it back (`ListenerLastsIff`).
- A ring of capacity 0 blocks both threads, and no other does (`BothBlockedIffNoSlots`).
- `get_data` leaves a trailing comma exactly when some segment has a value but the last has none
  (`TrailingComma`, with the inputs of `CommaAtEnd`).
- `diff_timespec` is an unsigned expression; read as signed it is the difference exactly when that
  fits 64 bits (`DiffIsExactIffItFits`, with the input of `DiffTurnsNegative`), and the deadline sum
  may wrap (`SetTimeNsec`).
- The blank-skipping loop of the request line reads a byte before it tests its index, and so reads one
  byte past the buffer exactly when only blanks are left (`SkipBlanks`).
- `echo_cgi` compares the method with "GET" case-sensitively and with "POST" case-insensitively, so
  a "get" needs a Content-Length line. The model follows the code.
- The comment on `skip_trailing_space` says that it returns the last non-space character; the code
  returns the position behind it, and so does the model.
- `IsEmpty` answers 0 for an empty list and 1 otherwise, and in `data_pool` the writer is called
  `getdata` and the reader `putdata`. The model keeps the names and the answers.

## Model

| member | source | states |
|---|---|---|
| ListNode.Node.constructor | Cond/producer_consumer.c:15-26 | a new node carries the value and links to nothing |
| ListNode.List.constructor | Cond/producer_consumer.c:28-31 | a new list is a lone sentinel with nothing linked |
| ListNode.List.IsEmpty | Cond/producer_consumer.c:42-53 | 0 exactly for the empty list, 1 otherwise |
| ListNode.List.PushHead | Cond/producer_consumer.c:33-40 | the list stays acyclic and gains the value in front, in a fresh node |
| ListNode.List.PopHead | Cond/producer_consumer.c:56-77 | the first node is unlinked and freed and its value returned, no freed node stays linked; an empty list is left alone |
| ListNode.List.ShowList | Cond/producer_consumer.c:91-102 | following the pointers ends and visits exactly the contents in order |
| CondProtocol.StepKeepsInv | Cond/producer_consumer.c:124-157 | every step of every thread keeps mutual exclusion, what a consumer learnt from its test, the wakeup credits, and the list in step with the log of pushes and pops |
| CondProtocol.NoLostWakeup | Cond/producer_consumer.c:124-157 | in every reachable state with a sleeper, the list is no longer than the owed signals plus the woken consumers that have not popped; a non-empty list then has such a thread |
| CondProtocol.Drain | Cond/producer_consumer.c:124-157 | from any state of the invariant with a consumer, some schedule without a new production and without a spurious wakeup empties the list |
| CondProtocol.UnaidedIsBounded | Cond/producer_consumer.c:124-157 | every schedule without new productions and spurious wakeups is no longer than a bound computed from the state |
| CondProtocol.StuckIsEmpty | Cond/producer_consumer.c:124-157 | when no thread could move without one of those, the list is empty |
| CondProtocol.EveryUnaidedRunDrains | Cond/producer_consumer.c:124-157 | from every reachable state with a consumer, every such run is bounded and, once nothing can move, has handed out every value |
| CondProtocol.MutexExcludes | Cond/producer_consumer.c:130-153 | no two threads hold the mutex, and Pop_head is only reached with a non-empty list |
| CondProtocol.ReplayConserves | Cond/producer_consumer.c:33-77 | for any log a stack allows, pushed values are popped values plus the stack, as multisets |
| CondProtocol.Conservation | Cond/producer_consumer.c:124-157 | in every run, what was pushed is what was popped plus what is linked |
| ThreadSystem.Shared.constructor | Cond/producer_consumer.c:160-167 | the threads start outside the mutex over an empty list |
| ThreadSystem.Shared.ProducerStep | Cond/producer_consumer.c:124-139 | a statement of thread_producer on the heap list is the step of the protocol, or blocks and changes nothing |
| ThreadSystem.Shared.ConsumerStep | Cond/producer_consumer.c:140-157 | the same for thread_consumer |
| ThreadSystem.Shared.Consume | Cond/producer_consumer.c:152 | Pop_head under the mutex takes the front of the list and logs it |
| ThreadSystem.Shared.Step | Cond/producer_consumer.c:124-157 | whichever thread is scheduled, the heap step is the protocol's step, or nothing changes |
| CondProtocol.GrantedRuns | Cond/producer_consumer.c:124-157 | the requests of a schedule that are granted, blocked ones skipped, form a run of the protocol |
| ThreadSystem.Shared.Run | Cond/producer_consumer.c:124-157 | a run on the heap ends in the state of the protocol after the granted requests, and keeps the list acyclic and the invariant |
| CondRuns.DrawnIsDelivered | Cond/producer_consumer.c:124-157 | over every run, each value was drawn by the producers as often as it was popped, is linked, and is still in a producer's hand |
| CondRuns.RolesNeverChange | Cond/producer_consumer.c:124-157 | over every run a producer stays a producer and a consumer a consumer |
| CondRuns.BlockedIff | Cond/producer_consumer.c:130-153 | a thread is blocked exactly if it needs the mutex and another thread has it, or its signal would not wake what a signal wakes |
| CondRuns.OneProduction | Cond/producer_consumer.c:129-134 | a producer that nobody interrupts puts the value it drew at the head of the list |
| CondRuns.OneConsumption | Cond/producer_consumer.c:145-153 | a consumer that nobody interrupts takes the head of the list, or goes to sleep on an empty one |
| RingProtocol.WriterKeepsInv | chat/chat_system/data_pool/data_pool.h:18-26 | every statement of the writer keeps the permit count, the indices and the window of unread items |
| RingProtocol.ReaderKeepsInv | chat/chat_system/data_pool/data_pool.h:27-35 | every statement of the reader keeps them |
| RingProtocol.ReadIsPrefixOfWritten | chat/chat_system/data_pool/data_pool.h:18-35 | in every run the items read are a prefix of those written, and the rest sits in the modular window |
| RingProtocol.SlotsExclude | chat/chat_system/data_pool/data_pool.h:22-31 | the two threads never use the same slot at once, nor one outside the pool |
| RingProtocol.PermitsConserved | chat/chat_system/data_pool/data_pool.h:8-35 | free plus filled plus in flight is always cap |
| RingProtocol.BothBlockedIffNoSlots | chat/chat_system/data_pool/data_pool.h:20-29 | a thread blocks only in its sem_wait, and both do at once exactly when cap is 0 |
| RingProtocol.RefinesBoundedQueue | chat/chat_system/data_pool/data_pool.h:18-35 | each step of a run is a step of a bounded first-in-first-out queue, or invisible to it |
| RingProtocol.ReaderDrains | chat/chat_system/data_pool/data_pool.h:27-35 | from any state of the invariant the reader alone takes everything that is posted, in finitely many statements |
| DataPool.DataPool.constructor | chat/chat_system/data_pool/data_pool.h:8-16 | cap free permits, no filled one, both indices 0 |
| DataPool.DataPool.WriterStep | chat/chat_system/data_pool/data_pool.h:18-26 | a statement of getdata on the array is the writer's step, or blocks and changes nothing |
| DataPool.DataPool.ReaderStep | chat/chat_system/data_pool/data_pool.h:27-35 | a statement of putdata on the array is the reader's step, or blocks and changes nothing |
| DataPool.DataPool.GetData | chat/chat_system/data_pool/data_pool.h:18-26 | a whole getdata appends its item to the queue exactly when a slot is free |
| DataPool.DataPool.FinishWrite | chat/chat_system/data_pool/data_pool.h:23-25 | after its store the writer cannot block and leaves items and reader alone |
| DataPool.DataPool.PutData | chat/chat_system/data_pool/data_pool.h:27-35 | a whole putdata takes the first item of the queue exactly when there is one |
| DataPool.DataPool.FinishRead | chat/chat_system/data_pool/data_pool.h:32-34 | after its take the reader cannot block and leaves items and writer alone |
| HttpLines.Socket.Recv | myhttp/http/httpd.c:132 | one byte is taken from the stream, if there is one |
| HttpLines.Socket.Peek | myhttp/http/httpd.c:137 | the next byte is seen and stays |
| HttpLines.RecvByte | myhttp/http/httpd.c:132-146 | one byte of a line: a CRLF is consumed whole, anything else by one byte, and a CR becomes an LF |
| HttpLines.GetLine | myhttp/http/httpd.c:126-157 | the buffer gets exactly the line, a NUL behind it and no other change; the socket keeps the rest |
| HttpLines.LineOfNormalized | myhttp/http/httpd.c:126-157 | a call returns the first piece of the normalised stream and leaves the remainder of it |
| HttpLines.LineCutsCleanly | myhttp/http/httpd.c:135-146 | a call takes a prefix of the stream and never ends inside a CRLF |
| HttpLines.LineShape | myhttp/http/httpd.c:130-156 | LF is at most the last byte; 0 is returned only at the end of the stream or with no room; otherwise only a full buffer or the end stops a line |
| HttpLines.ChunkingDoesNotMatter | myhttp/http/httpd.c:126-157 | for any buffer sizes, what successive calls return followed by the normalised rest is the normalised stream |
| HttpLines.EnoughCalls | myhttp/http/httpd.c:126-157 | with sizes of at least 2, as many calls as bytes reach the end of the stream |
| HttpLines.NormalizeIdempotent | myhttp/http/httpd.c:135-146 | the normalised stream has no CR left, and reading it again would change nothing |
| HttpLines.NormalizeByBytes | myhttp/http/httpd.c:135-146 | normalising is one pass over the bytes that only remembers whether the last one was a CR |
| HttpLines.CutIsUnique | myhttp/http/httpd.c:135-146 | a stream has one place only, outside every CRLF, behind which a given number of normalised bytes is left |
| HttpLines.LineByBytes | myhttp/http/httpd.c:126-157 | a call returns the first piece of that pass, and leaves the stream at the one place that has the rest of it |
| HttpHeader.ClearHeader | myhttp/http/httpd.c:159-166 | the loop leaves in the socket what the specification of the drain leaves |
| HttpHeader.HeaderAndBodyIff | myhttp/http/httpd.c:159-166 | header lines and body are the only way to read the stream by bytes as non-empty lines, an empty one, and a remainder |
| HttpHeader.DrainByLines | myhttp/http/httpd.c:159-166 | the drain stops after the first whole line whose length is a multiple of 1023, 0 included |
| HttpHeader.ClearHeaderLeavesBody | myhttp/http/httpd.c:159-166 | exactly the bytes after the first empty line are left if and only if no earlier line has a length that is a non-zero multiple of 1023 (unless nothing follows it) |
| HttpHeader.FalseEmptyLine | myhttp/http/httpd.c:161-165 | a 1023-byte header line leaves the rest of the header in the socket |
| HttpPost.ReadHeaderLine | myhttp/http/httpd.c:204-209 | one turn of the loop: the line consumed, the length updated, and whether to go on |
| HttpPost.ReadPostHeader | myhttp/http/httpd.c:203-209 | the do-while loop finds the length and stops where its specification says |
| HttpPost.FramingByReads | myhttp/http/httpd.c:203-209 | for every stream the loop stops where clear_header would, with the last length among the lines it read |
| HttpPost.FramingOfLine | myhttp/http/httpd.c:203-209 | what the loop makes of one whole line of any length, read in pieces of 1023 bytes |
| HttpPost.FramingByLines | myhttp/http/httpd.c:203-209 | the length the loop finds, in terms of the whole lines it reads |
| HttpPost.FramingIff | myhttp/http/httpd.c:203-209 | declared length and body are found if and only if no header line fakes an empty one and no length at the head of a later piece differs from the one declared there; the body alone if and only if no line fakes an empty one |
| HttpPost.LengthIff | myhttp/http/httpd.c:203-209 | the length alone is the declared one exactly when it survives in the lines read and the lines missed declare nothing else |
| HttpPost.FalseEmptyLineInPost | myhttp/http/httpd.c:203-209 | after any 1023-byte header line the declared length is not found and the rest of the header is taken for the body |
| HttpPost.HiddenLength | myhttp/http/httpd.c:206-208 | a length 1023 bytes into a header line is taken for a declaration |
| HttpPost.PumpedMeaning | myhttp/http/httpd.c:274-282 | the pump writes the first len bytes of the stream, and past its end the last byte as often as bytes are missing |
| HttpPost.PumpedIsPrefixIff | myhttp/http/httpd.c:274-282 | what is written is a prefix of the stream if and only if the stream has len bytes |
| HttpPost.PumpBody | myhttp/http/httpd.c:274-282 | the for loop writes exactly the pumped bytes and consumes as many as there are |
| HttpPost.EchoCgi | myhttp/http/httpd.c:196-282 | error 500 exactly for a non-positive length of a non-GET; the body goes to the program exactly for POST in any case of its letters, and of a well framed one that is the announced bytes of the body, with the socket behind them |
| HttpPost.PostFraming | myhttp/http/httpd.c:201-282 | for every stream that declares a positive length: length, position and input are right if and only if no header line is misread and the body is as long as declared |
| HttpPost.PrintedPost | myhttp/http/httpd.c:201-209 | a POST printed with CRLF and a decimal length comes back if and only if no line has a length that is a multiple of 1023 or hides a length |
| HttpPost.ShortBody | myhttp/http/httpd.c:274-282 | a two-byte body announced as four reaches the program with its last byte repeated |
| CStrings.AtoiOfDecimal | myhttp/http/httpd.c:207 | a printed number reads back |
| CStrings.AtoiMeaning | myhttp/http/httpd.c:207 | of any text, the sign and the digits behind the leading blanks are the number |
| CStrings.CaseOnly | myhttp/http/httpd.c:274 | two strings compare equal exactly if they differ in the case of letters only |
| CStrings.SpacesByCode | Tinyhttp/tinyhttp_server_source.c:70 | which bytes are blanks |
| RequestLine.CopyWord | Tinyhttp/tinyhttp_server_source.c:70-98 | the copied C string is the run of non-blank bytes, at most 254 |
| RequestLine.SkipBlanks | Tinyhttp/tinyhttp_server_source.c:91-92 | the position behind the blanks and in front of the next other byte, or the end of the buffer |
| RequestLine.CopyWords | Tinyhttp/tinyhttp_server_source.c:65-98 | the method is the first word, the URL the word behind the blanks that follow it |
| RequestLine.SplitQuery | Tinyhttp/tinyhttp_server_source.c:100-114 | in place, the URL becomes the text before its first '?' and the query the text behind it |
| RequestLine.QuestionSplit | Tinyhttp/tinyhttp_server_source.c:106-113 | the path has no '?', and path, '?' and query glue back to the URL |
| RequestLine.MethodDecides | Tinyhttp/tinyhttp_server_source.c:77-114 | whatever follows the first word: a GET or POST exactly if it is one in any case of its letters, otherwise not implemented |
| RequestLine.LineKeepsWords | Tinyhttp/tinyhttp_server_source.c:64 | get_line keeps method and URL whole whatever the version text |
| RequestLine.ParseRequest | Tinyhttp/tinyhttp_server_source.c:64-114 | the loops compute the parse of the buffer, unknown methods included |
| RequestLine.RequestRoundTrip | Tinyhttp/tinyhttp_server_source.c:64-114 | reading and parsing a printed line of any method recovers it: the URL of a GET or POST whole exactly up to 254 bytes, with path and query that glue back to it; another method is not implemented |
| CgiRelay.ChildKeepsInv | myhttp/http/httpd.c:238-269 | every step of the child keeps the accounts of both pipes and of what the client has |
| CgiRelay.ParentKeepsInv | myhttp/http/httpd.c:270-296 | every step of the parent keeps them |
| CgiRelay.OutputHasEachByte | myhttp/http/httpd.c:284-288 | each byte the program writes is in its output, at its place among the writes |
| CgiRelay.ClientSeesHeadThenOutput | myhttp/http/httpd.c:258-289 | in every interleaving the client has a prefix of the response, and all of it when the parent is finished; the response is the literal head followed by each byte the program writes, at its place, and nothing else |
| CgiRelay.ProgramHearsInput | myhttp/http/httpd.c:274-282 | in every interleaving the program has read the first bytes of its input, in order, one for each read |
| CgiRelay.RunsAreBounded | myhttp/http/httpd.c:238-296 | no interleaving is longer than a bound computed from the job |
| CgiRelay.CompletesIffCompatible | myhttp/http/httpd.c:221-295 | every interleaving that runs to its end finishes the relay if and only if the program never reads past its input, never fills its output pipe while more input is due than fits, and reads all of its input or overflows its output pipe |
| CgiRelay.CompatibleCompletes | myhttp/http/httpd.c:274-289 | a state of a compatible job in which nothing can move has a finished parent |
| CgiRelay.LazyRun | myhttp/http/httpd.c:221-295 | the schedule that runs the child first reaches a state in which nothing can move, and keeps the accounts that expose an incompatible program |
| CgiRelay.BlocksForEver | myhttp/http/httpd.c:284-291 | a program that reads past its input leaves parent and child waiting for each other |
| CgiRelay.BothPipesFull | myhttp/http/httpd.c:277-287 | a program that answers too early leaves both pipes full and both processes blocked |
| CgiRelay.DiesOfSigpipe | myhttp/http/httpd.c:277-281 | a program that exits with input unread gets the parent killed |
| CgiRelay.WellBehavedProgramIsServed | myhttp/http/httpd.c:274-289 | a program that reads exactly the announced bytes before it writes is served with any positive pipe sizes |
| CgiRelay.WellBehavedProgramHearsAll | myhttp/http/httpd.c:274-289 | and when nothing can move any more it has read its whole input |
| CgiRequest.PostIsServed | myhttp/http/httpd.c:196-296 | from header to answer, when no header line is misread: the input is the body's bytes if and only if the body is long enough, every interleaving completes in bounded length, the program reads that input, and the client receives the head and each byte the program writes |
| PollTable.DropKeepsValid | poll_server/server.c:164-173 | for any entry, the listener included, overwriting an entry and its record with the last ones keeps the table sound |
| PollTable.ScanQuietKeeps | poll_server/server.c:114-236 | where nothing is accepted any more, exactly the remaining entries no branch drops are added to those already passed |
| PollTable.ScanQuietVisits | poll_server/server.c:114-236 | where nothing is accepted any more, the scan looks at each remaining entry exactly once |
| PollTable.RoundVisitsOnce | poll_server/server.c:114-236 | one round looks at every entry and the newcomer exactly once and keeps the table sound |
| PollTable.RoundKeepsSurvivors | poll_server/server.c:114-236 | after a round the table has exactly the entries no branch drops |
| PollTable.EachDispatchedOnce | poll_server/server.c:106-236 | each descriptor is dispatched exactly once with the flags poll gave it |
| PollTable.TableStaysSound | poll_server/server.c:91-236 | over all rounds: at most 11 entries, distinct descriptors, the listener first if it is there, each client's record with its own address |
| PollTable.ListenerInRound | poll_server/server.c:116-173 | the listener is in the table after a round if and only if it was before and did not report a hang-up without data or error |
| PollTable.ListenerLastsIff | poll_server/server.c:103-236 | over a whole run the listener is kept if and only if it never hangs up that way; once lost it does not come back |
| PollService.ClientsInRound | poll_server/server.c:116-199 | who is served after a round: the one accepted in it, and those that reported an error, or neither a hang-up nor a read of 0 bytes |
| PollService.AddressesInRound | poll_server/server.c:137-195 | each client's record after a round is what accept said when it joined, or what it was before |
| PollService.RoundIsService | poll_server/server.c:106-236 | a round on the table with its swaps is a round on a map from clients to addresses |
| PollService.RoundsAreService | poll_server/server.c:103-239 | and so is every run: who is served, at which address, and whether the listener is left |
| PollServer.Server.constructor | poll_server/server.c:84-101 | the table starts with the listener alone |
| PollServer.Server.AcceptClient | poll_server/server.c:137-148 | the accepted client is appended with an empty answer and its record stored |
| PollServer.Server.DropClient | poll_server/server.c:164-173 | record and entry are overwritten with the last ones and the count goes down |
| PollServer.Server.Dispatch | poll_server/server.c:116-234 | which branch is taken and what it does to table and records |
| PollServer.Server.Visit | poll_server/server.c:114-236 | one turn of the loop is one step of the scan, and the measure goes down |
| PollServer.Server.ScanTable | poll_server/server.c:113-236 | the loop on the arrays ends and is the scan |
| PollServer.Server.FillFlags | poll_server/server.c:106 | poll writes its answer into every entry in use and changes nothing else |
| PollServer.Server.ServeRound | poll_server/server.c:106-237 | one turn of the outer loop is a round and keeps the table sound |
| PollServer.Server.Serve | poll_server/server.c:103-239 | every run of the outer loop is the run of rounds, and serves the clients that the map says, with their addresses |
| Crawler.Manager.constructor | crawler/baike_crawler2.0/manager.py:2-4 | both sets are empty |
| Crawler.Manager.AddUrl | crawler/baike_crawler2.0/manager.py:5-9 | a URL is added exactly when it is given and in neither set |
| Crawler.Manager.AddUrls | crawler/baike_crawler2.0/manager.py:11-15 | the new set gains exactly the URLs that are not old |
| Crawler.Manager.HasNewUrl | crawler/baike_crawler2.0/manager.py:16-17 | whether the frontier is non-empty |
| Crawler.Manager.GetUrl | crawler/baike_crawler2.0/manager.py:18-21 | some new URL moves to the old ones; the empty frontier is the error case |
| Crawler.VisitKeepsInv | crawler/baike_crawler2.0/main.py:20-29 | a visit keeps the sets disjoint, the known pages the root and all links of visited pages, the fetches without repetition and each discovered by an earlier one |
| Crawler.ClosedHasReachable | crawler/baike_crawler2.0/main.py:20-29 | a set with the root that no link leaves has every reachable page |
| Crawler.ReachableIffWalk | crawler/baike_crawler2.0/main.py:20-29 | a page is reachable exactly if a walk along links of downloaded pages leads to it |
| Crawler.CrawlByPages | crawler/baike_crawler2.0/main.py:20-29 | the known pages are the root and what visited pages have links to; with an empty frontier the visited ones are those a walk leads to |
| Crawler.Craw | crawler/baike_crawler2.0/main.py:13-31 | the loop ends with that invariant, also in terms of the pages themselves: at the limit, with an empty frontier and every page visited to which a walk leads, or with an exception exactly when the last page asked for could not be had |
| Crawler.EmptyFrontierIsComplete | crawler/baike_crawler2.0/main.py:20-29 | with an empty frontier the fetched pages are exactly the reachable ones, whatever the pop order |
| Crawler.PagesFetched | crawler/baike_crawler2.0/main.py:20-29 | the number of fetches is the number of reachable pages or the limit, whichever is smaller |
| Crawler.NoFailureIfAllReachableDownload | crawler/baike_crawler2.0/main.py:23-26 | if every reachable page can be had, every page asked for can |
| Korr.LoadsAgree | myhttp/http/include/byte_order_generic_x86_64.h:19-54 | the x86 loads are the portable loads, the masked 4-byte read included |
| Korr.SignedLoadsAgree | myhttp/http/include/byte_order_generic.h:20-34 | the signed 2-, 4- and 8-byte loads, portable or x86, have the bits of the unsigned ones |
| Korr.Load2Value | myhttp/http/include/byte_order_generic.h:35-36 | the 2-byte load is the little-endian number |
| Korr.Load3Value | myhttp/http/include/byte_order_generic.h:37-39 | the 3-byte load is the little-endian number |
| Korr.Load4Value | myhttp/http/include/byte_order_generic.h:40-43 | the 4-byte load is the little-endian number |
| Korr.Load5Value | myhttp/http/include/byte_order_generic.h:44-48 | the 5-byte load is the little-endian number |
| Korr.Load6Value | myhttp/http/include/byte_order_generic.h:49-54 | the 6-byte load is the little-endian number |
| Korr.Load8Value | myhttp/http/include/byte_order_generic.h:55-63 | the 8-byte load is the little-endian number |
| Korr.SignedLoad3Value | myhttp/http/include/byte_order_generic.h:22-29 | the signed 3-byte load is the two's-complement number, sign extension included |
| Korr.Int2Store | myhttp/http/include/byte_order_generic.h:64-67 | the first two bytes of the argument, those of the round trips, are written and nothing else |
| Korr.Int3Store | myhttp/http/include/byte_order_generic.h:68-72 | the first three bytes of the argument, those of the round trips, are written and nothing else |
| Korr.Int4Store | myhttp/http/include/byte_order_generic.h:73-77 | the first four bytes of the argument, those of the round trips, are written and nothing else |
| Korr.Int5Store | myhttp/http/include/byte_order_generic.h:78-83 | the first five bytes of the argument, those of the round trips, are written and nothing else |
| Korr.Int6Store | myhttp/http/include/byte_order_generic.h:84-90 | the first six bytes of the argument, those of the round trips, are written and nothing else |
| Korr.Int8Store | myhttp/http/include/byte_order_generic.h:91-95 | two 4-byte stores write the eight bytes of the argument and nothing else |
| Korr.StoredDigits | myhttp/http/include/byte_order_generic.h:64-95 | a store of N bytes writes the first N base-256 digits of its argument |
| Korr.WordStore2Agrees | myhttp/http/include/byte_order_generic_x86_64.h:56-58 | the x86 word store writes the bytes of the portable store |
| Korr.WordStore4Agrees | myhttp/http/include/byte_order_generic_x86_64.h:64-66 | the same for 4 bytes |
| Korr.WordStore8Agrees | myhttp/http/include/byte_order_generic_x86_64.h:81-83 | the same for 8 bytes |
| Korr.StoreThenLoad | myhttp/http/include/byte_order_generic.h:35-95 | loading a stored value gives it back modulo 256 to the width |
| Korr.LoadThenStore | myhttp/http/include/byte_order_generic.h:35-95 | storing a loaded value restores the bytes |
| Korr.SignedRoundTrip | myhttp/http/include/byte_order_generic.h:20-95 | a signed load gives a stored number back exactly when it fits the width |
| TrailingSpace.TrimmedMeaning | myhttp/http/include/m_string.h:262-264 | the position has only spaces behind it and none before it, and is the only such position |
| TrailingSpace.SkipTrailingSpace | myhttp/http/include/m_string.h:253-265 | the scan by 8 bytes returns the position of the plain byte loop |
| TrailingSpace.TrimBytes | myhttp/http/include/m_string.h:243-244 | the last byte loop returns the position for the prefix it is given |
| TrailingSpace.TrimWords | myhttp/http/include/m_string.h:239-241 | the loop over aligned words passes spaces only and stays above the first aligned word |
| TrailingSpace.LoadIsSpaceInt | myhttp/http/include/m_string.h:240-241 | an aligned word load inside the buffer tells whether all its bytes are spaces |
| TrailingSpace.SkipTrailingSpaceAligned | myhttp/http/include/m_string.h:216-246 | the scan by aligned words, for any base address and both word sizes, returns the position of the plain byte loop and never loads outside the buffer |
| Timespec.AbsTime.SetTimeNsec | myhttp/http/include/my_pthread.h:281-287 | the pair is normalised, and denotes 100 times the time plus the offset exactly when the sum does not wrap |
| Timespec.CmpIsSignOfDifference | myhttp/http/include/my_pthread.h:299-304 | on normalised pairs comparison is the sign of the difference of the instants |
| Timespec.CmpIsTotalOrder | myhttp/http/include/my_pthread.h:299-304 | comparison is a total order on normalised pairs |
| Timespec.DiffIsExactIffItFits | myhttp/http/include/my_pthread.h:307-310 | the unsigned difference read as signed is the difference exactly when it fits |
| Timespec.DiffTurnsNegative | myhttp/http/include/my_pthread.h:307-310 | two normalised instants too far apart: the later one has a negative difference |
| SqlValues.CopyValue | myhttp/http/sql_cgi/sql_insert_cgi.cpp:20-26 | the inner loop copies up to the next '&' or the end |
| SqlValues.AppendValue | myhttp/http/sql_cgi/sql_insert_cgi.cpp:18-38 | one value is appended with its quotes and comma, and the rest of the query is what is left to list |
| SqlValues.ListValues | myhttp/http/sql_cgi/sql_insert_cgi.cpp:16-40 | for every query the outer loop yields the value list of its segments |
| SqlValues.GetData | myhttp/http/sql_cgi/sql_insert_cgi.cpp:3-43 | the value list for a GET; nothing for other methods; the NULL dereference exactly for a GET without a query string |
| SqlValues.FormRoundTrip | myhttp/http/sql_cgi/sql_insert_cgi.cpp:12-40 | a printed form comes back as its values, quoted, in order |
| SqlValues.TrailingComma | myhttp/http/sql_cgi/sql_insert_cgi.cpp:27-36 | the list is the quoted values joined by commas, with one more comma exactly when the last segment has no value and another has |
| SqlValues.CommaAtEnd | myhttp/http/sql_cgi/sql_insert_cgi.cpp:27-36 | a form whose last field is a bare key ends its list with a comma |

## Left out

- Sockets, files, logging, error pages, `sendfile`, `stat`, set-up of listeners and the clients: input and output only.
- `DestroyList` and `test` in the list file pass a NULL output pointer and read a freed node; `malloc` is taken to succeed.
- The `size` counter of `data_pool` (two threads change it without a lock), more than one writer or reader, and the header's typing errors; the pool has `cap` slots, though the source never sizes it.
- Whether one particular consumer is served while producers keep producing: nothing in the source promises it. Without new productions no fairness is needed.
- CStrings.AtoiOfDecimal: numbers are unbounded, because `atoi` is undefined beyond the range of int and a longer number has no result to state.
- CStrings.AtoiMeaning: unbounded for the same reason.
- The environment variables `echo_cgi` hands to the program (method, length and query string in buffers of 255 bytes).
- HttpLines.GetLine: a failing `recv` in the middle of a stream counts as its end.
- RequestLine.SkipBlanks: stops at the end of the buffer where the source reads one byte past it, because what is there is not part of this model; the contract says when that is.
- The GET path split of `myhttp/http/httpd.c`, which does not stop at the end of the string; the Tinyhttp split is modelled instead.
- A CGI program is the sequence of reads and writes of one run; results for all such sequences cover programs whose writes depend on what they read. The client never closes its connection, SIGPIPE has its default effect, and one request runs at a time.
- Messages between poll clients (`datatowrite`, `events`): receivers share the sender's buffer and the flag updates clear no bit, so there is no delivery to state.
- PollTable.TableStaysSound: accept is taken to return a descriptor that is not in use, and below 65535, because the source writes outside its array for a larger one.
- Crawler.Craw: any exception in downloading or parsing is one outcome, a page that cannot be had. The limit 5 is a parameter.
- The arguments of the stores are 64-bit words of the argument's bits, whatever its C type.
- The `select` and `epoll` servers, the semaphore wrapper, and the sleep, daemon and socket-pair samples: only easy invariants.
- Floating-point stores and the MySQL declarations without bodies.

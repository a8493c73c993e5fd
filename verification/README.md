# gweb++: a model of its hard parts, with proofs

gweb++ is a single-threaded HTTP server: one event loop polls the sockets, every connection has an idle timer in one
red-black tree, and a connection turns bytes into requests and requests into bytes with hand-written state machines.
This project models those parts in Dafny in the form they have there: classes whose methods change fields, buffers and
arrays that are changed in place, and loops. Each of these methods is proved against a specification on values, and
what the server promises is proved of the specification.
`dafny verify dfyconfig.toml` checks the whole project.

The files, by component:

- **Timers and the event loop.** `RedBlackShape`, `RedBlackFixup` and `RedBlackOrder` hold the lemmas about trees with
  parent links and a shared sentinel, `RedBlackTree` the class: rotations, both fix-ups, transplant, the stock of erased
  nodes, iterators. `Timers` is the wrapping comparison of deadlines, `FdSet` the sparse set of descriptors,
  `PollSelector` the array that mirrors it, `TcpServer` the ownership of timers, their expiry and the dispatch of events.
  `Sequences` and `MachineWord` are shared.
- **Requests.** `RequestLine` says with text what the request-line parser does, `LineGrammar` and `LineWriting` which
  lines it accepts, `LineParsing` is the parser with its offsets. `HeaderNames`, `HeaderNumbers`, `StandardHeaders`,
  `HeaderValue`, `HeaderTable`, `HeaderParsing` and `Headers` do the same for header tables, and `HeaderBlocks` says which
  blocks are accepted. `Receiving` is the connection that reads one request after the other from the stream, and
  `Persistence` says of streams after which request it is closed. `Path` and `Url` are the path normaliser and the
  percent-encoder.
- **Answers.** `Ranges` reads the Range header, `Response` sends the header block and the body, `ByteRanges` is what a
  client reads from a body with several ranges, `FileAnswer` joins header and body and adds the error pages. `Serving` joins `Receiving` and `Response`: bytes in, answers out.
  `Number` is printing and parsing of numbers.
- **Configuration.** `KeyLists` are the lists of keys and the searches in them, `ConfigurationReading` the parser and the
  printer as functions with their round trip, `ConfigurationTrees` what is known of an accepted file.
  `ConfigurationGrammar` is a grammar of the files with their trees, `ConfigurationExact` the proof that just these are
  accepted. `Configuration` is the class that does it.
- `CaseOrder`, `Text` and `Wrappers` are shared.

Three conventions: strings are sequences of characters below 256, a foreign call (poll, accept, malloc, reading from and
writing to a socket) is an arbitrary choice among what it may return, and every loop terminates.

## Model

| member | source | states |
|---|---|---|
| RedBlackTree.RedBlackTree.Insert | util/red_black_tree.h:200-249 | the tree stays red-black with consistent links; the new node takes one place in the order and all others stay; if the key can be compared, the order is kept and equal keys come before it; the node is taken from the stock, if there is one |
| RedBlackTree.RedBlackTree.Erase | util/red_black_tree.h:251-300 | exactly the node of the iterator leaves the order; every other node keeps its place, its address and its data; the node goes to the stock, or is freed when the stock is full |
| RedBlackTree.RedBlackTree.InsertFixup | util/red_black_tree.h:530-576 | from one red-red violation at z, the loop ends with a red-black tree with the same nodes in the same order |
| RedBlackTree.RedBlackTree.DeleteFixup | util/red_black_tree.h:578-644 | from one missing black at x, which may be the sentinel, the loop ends with a red-black tree with the same nodes in the same order |
| RedBlackTree.RedBlackTree.Next | util/red_black_tree.h:394-405 | the node that follows in the order, or nil after the last one |
| RedBlackTree.RedBlackTree.Search | util/red_black_tree.h:442-464 | a node with an equal key; nil only if no key of a sorted tree compares equal |
| RedBlackTree.RedBlackTree.Clear | util/red_black_tree.h:171-187 | the tree and the stock are empty, and nothing but the sentinel is left in memory |
| RedBlackOrder.HeightBound | util/red_black_tree.h:530-644 | a red-black tree of n nodes has height at most 2 log2(n + 1) |
| Timers.WindowOrder | timer/timer.h:18-31 | on deadlines within a window narrower than half the range, the wrapping comparison is a strict weak order and agrees with unwrapped time |
| Timers.WindowSharp | timer/timer.h:18-31 | half the range is the exact limit: at that distance, two deadlines are each less than the other |
| Timers.ExpiryTestExact | timer/timers.cpp:10-12 | the plain comparison tells whether a deadline is still ahead if and only if no multiple of 2^32 lies between it and the time |
| TcpServer.ExpiryExact | timer/timers.cpp:4-19 | handle_expired fires exactly the timers that are due if and only if no multiple of 2^32 lies between the time and a deadline that is due, or the first one after those |
| TcpServer.FiresEarly | timer/timers.cpp:4-19 | with one timer in the tree, due in 16 ms and after the wrap-around, it fires at once |
| TcpServer.BlocksOthers | timer/timers.cpp:4-19 | just after the wrap-around, a timer that has been due for 16 ms does not fire, and holds back one behind it that is due too |
| TcpServer.ClosedAtOnce | timer/timers.cpp:4-19 | a server that accepts a connection 8 ms before the wrap-around closes it in the same millisecond |
| TcpServer.KeptOverdue | timer/timers.cpp:4-19 | a server keeps the timer of a connection that has been due for 16 ms when the clock has wrapped around |
| TcpServer.TcpServer.HandleExpired | timer/timers.cpp:4-19 | it fires the longest prefix of the tree whose deadlines pass the test; just the connections behind them are closed and no longer watched; every other timer keeps its data |
| TcpServer.ExpiredExactly | timer/timers.cpp:4-19 | without a wrap-around, exactly the timers that are due fire, in deadline order and, among equal deadlines, in the order in which they were added |
| TcpServer.TcpServer.CloseIdle | timer/timers.cpp:4-19 | the same of the method, between two rounds of the server |
| TcpServer.OneTimerEach | net/tcp_connection.cpp:454-473 | there are as many live nodes as connections with an armed timer |
| TcpServer.TcpServer.AddTimer | net/tcp_connection.cpp:454-465 | the connection has one timer, with the new deadline; every other timer stays with its data, and the bijection of timers and connections is kept |
| TcpServer.TcpServer.DeleteTimer | net/tcp_connection.cpp:467-473 | the timer of the connection leaves the tree, if it is armed; every other one stays with its data |
| TcpServer.TcpServer.OnNewConnection | net/tcp_server.cpp:85-116 | an accepted descriptor is watched at the end of the array, for reading or for writing as the protocol says, with an armed timer of its own and the new deadline |
| TcpServer.TcpServer.DeleteConnection | net/tcp_server.cpp:118-122 | the descriptor is no longer watched and its timer, if it was armed, is gone; the timers of others stay with their data |
| TcpServer.TcpServer.OnTimer | net/internet/http/connection.cpp:18-25 | a connection that is told of its timer does not erase that timer a second time |
| TcpServer.TcpServer.Listen | net/tcp_server.cpp:146-166 | a listener is watched for reading |
| TcpServer.TcpServer.Dispatch | net/poll_selector.cpp:118-143 | the log of calls grows by the calls that belong to the entry; a handler that gave up is no longer watched, and then another entry stands in its place |
| TcpServer.TcpServer.OnReady | net/tcp_connection.h:171-193 | the flag of the event is set when the connection runs; one that gives up loses its timer and its flags |
| TcpServer.TcpServer.Process | net/poll_selector.cpp:112-146 | every ready descriptor is visited exactly once, whatever the handlers add, change or have removed on the way; each gets its calls and nobody else is called: a listener one accept, a connection on_readable and on_writable as poll reported, the second only if the first has not given up; a connection that gave up is no longer watched, unless its descriptor has been accepted again |
| TcpServer.TcpServer.Serve | net/tcp_server.cpp:63-83 | after any number of rounds, with any handlers and any clock, live nodes and armed timers match, and in every round each ready entry has got its calls; with a clock that neither goes back nor jumps nor wraps, the tree is sorted and holds no overdue timer |
| TcpServer.RunServer | net/tcp_server.cpp:46-83 | the same for a server from its creation on |
| PollSelector.ReadyOnce | net/poll_selector.cpp:112-146 | with distinct descriptors, the ready entries are each in the bag once, and nothing else is |
| PollSelector.Selector.Add | net/poll_selector.cpp:33-47 | the array gets the entry at its end, if the descriptor is new, and mirrors the set |
| PollSelector.Selector.Remove | net/poll_selector.cpp:49-66 | the last entry takes the place of the removed one, in the array as in the set |
| PollSelector.Selector.Modify | net/poll_selector.cpp:68-80 | only the entry of the descriptor changes |
| FdSet.FdSet.Add | net/fdset.cpp:55-69 | the two arrays stay inverse to each other, and the descriptor is the last member |
| FdSet.FdSet.Remove | net/fdset.cpp:71-89 | the last member takes the place of the removed one, and the two arrays stay inverse to each other |
| RequestLine.ReadLineSplit | net/internet/http/connection.cpp:385-1000 | however the bytes of a request line are split, the parser ends up in the same place |
| RequestLine.RefusedWhy | net/internet/http/connection.cpp:385-1000 | a line is refused as too large beyond 32 KiB, as not found if its address has a scheme that is not served, and as a bad request in every other case |
| RequestLine.Classes | net/internet/http/connection.cpp:385-1000 | the characters of host, IP literal, scheme and query, one by one |
| RequestLine.MethodsKnown | net/internet/http/method.cpp:6-22 | the methods are those of section 5.1.1 of RFC 2616 and section 8 of RFC 2518 |
| LineWriting.LineExact | net/internet/http/connection.cpp:385-1000 | a line is accepted if and only if it is written as the grammar says and is not too long; its method, scheme, host, port, path, query, fragment and version are then those of the grammar |
| LineGrammar.StepWhole | net/internet/http/connection.cpp:385-1000 | every accepted character goes to the end of the parts that are kept, so no byte of a line is lost |
| LineParsing.LineParser.Parse | net/internet/http/connection.cpp:385-1000 | the offsets denote the parts that reading with text finds, for any number of calls on a growing buffer |
| Receiving.FirstMore | net/internet/http/connection.cpp:51-158 | what is found in the beginning of a stream is found in the whole of it |
| LineWriting.ReturnsRead | net/internet/http/connection.cpp:897-899 | the line `GET / ` with two carriage returns before the protocol is accepted |
| Serving.Session.Run | net/internet/http/connection.cpp:27-340 | for any pieces of input and any short writes, what the socket has taken is a beginning of the answers to the requests in the bytes delivered, in their order; it is all of them when the connection waits for more or is closed after an answer; the loop terminates |
| Serving.Session.OnReadable | net/tcp_connection.h:171-181 | when it waits for a request again, the connection has taken all pieces that have arrived and has answered all requests in them |
| Serving.Session.OnWritable | net/tcp_connection.h:183-193 | the same when the socket takes bytes again |
| Serving.Session.Served | net/internet/http/connection.cpp:27-340 | in every state, the wire is a beginning of the answers to what the stream holds, one after the other |
| Receiving.Receiver.NextRequest | net/internet/http/connection.cpp:314-334 | after an answer, what is left of the input comes to its front and is parsed as if it had been sent alone |
| Receiving.Receiver.AddCommonHeaders | net/internet/http/connection.cpp:342-360 | the connection stays open as the Connection header, the version and the number of requests say |
| Receiving.Receiver.HandedOver | net/internet/http/connection.cpp:27-340 | in every state, what has been handed over is a beginning of what the stream holds |
| Receiving.SameRequests | net/internet/http/connection.cpp:51-158 | two connections that have been sent the same bytes have found the same requests, however the bytes were split |
| Persistence.PersistentCases | net/internet/http/connection.cpp:342-360 | with `close` the connection ends, with `keep-alive`, in any case of letters, it stays open, without the header the version decides, and the tenth answer is the last in any case |
| Persistence.EventsAfter | net/internet/http/connection.cpp:314-360 | after the first request of a stream come the requests of the rest, or nothing, as that says |
| Persistence.SentFound | net/internet/http/connection.cpp:27-158 | a request of the grammars of lines and blocks is found as it was sent, whatever follows it |
| Persistence.Pipelined | net/internet/http/connection.cpp:27-360 | of requests sent one after the other, those up to the first that closes the connection are found |
| Persistence.ClosedAfterFirst | net/internet/http/connection.cpp:350-356 | a second request after one with `Connection: close` is not answered |
| Persistence.KeptAfterFirst | net/internet/http/connection.cpp:350-356 | a second one after an HTTP/1.1 request without the header is |
| CaseOrder.FindNeedle | string/memcasemem.cpp:4-36 | the search finds the needle if and only if it stands somewhere, whatever its case |
| HeaderNames.SearchStandard | net/internet/http/headers.cpp:604-628 | the binary search with a prefix comparison finds what looking at all names would find |
| StandardHeaders.TableProper | net/internet/http/headers.cpp:5-58 | the 52 standard names are sorted without regard to case, and all are tokens |
| StandardHeaders.KindsListed | net/internet/http/headers.cpp:5-58 | every name has the kind that sections 4.5, 5.3, 6.2 and 7.1 of RFC 2616 give it |
| StandardHeaders.Search | net/internet/http/headers.cpp:604-628 | so the search is right on the table that the server has |
| HeaderValue.CleanValue | net/internet/http/headers.cpp:701-770 | the words of the value with one blank between them, or a refusal if there is none or a line is not folded |
| HeaderValue.TidiedNeat | net/internet/http/headers.cpp:701-770 | a cleaned value has no line ends, no blanks at its edges and no two in a row |
| HeaderValue.NeatFixed | net/internet/http/headers.cpp:701-770 | cleaning leaves a value as it is if and only if it is of that kind and not empty |
| HeaderValue.TidiedTwice | net/internet/http/headers.cpp:701-770 | cleaning twice is cleaning once |
| HeaderTable.AddedGrouped | net/internet/http/headers.cpp:292-356 | adding keeps the table grouped by kind and name; the name is looked up with the new value, and every other name as before |
| HeaderTable.LookupRemoved | net/internet/http/headers.cpp:358-388 | after a removal, the name has the value added before, and every other name its own |
| HeaderTable.AddedInOrder | net/internet/http/headers.cpp:292-356 | adding the entries of a table in their order gives the table back |
| HeaderTable.KindsInOrder | net/internet/http/headers.cpp:292-356 | general headers come before those of requests, of responses and of entities, and names that are not standard last |
| Headers.Headers.SearchId | net/internet/http/headers.cpp:630-655 | stopping early finds what a full scan finds, and otherwise the place to insert |
| Headers.Headers.SearchName | net/internet/http/headers.cpp:657-682 | the same for names that are not standard |
| Headers.Headers.Add | net/internet/http/headers.cpp:292-356 | the cleaned value is added in its place, or nothing happens; a table fit to be printed stays so |
| Headers.Headers.RemoveId | net/internet/http/headers.cpp:358-372 | the last entry of that name goes, if there is one |
| Headers.Headers.Parse | net/internet/http/headers.cpp:390-579 | with offsets into a growing buffer, the result, the table and the size are those of reading the bytes one by one |
| Headers.Headers.Serialize | net/internet/http/headers.cpp:581-602 | the lines of the entries, and an empty one |
| Headers.Transfer | net/internet/http/headers.cpp:390-602 | a fresh table that ignores errors parses what another prints, to its end and with the same entries, if and only if it is not longer than 64 KiB |
| Headers.Receive | net/internet/http/headers.cpp:390-579 | whatever a fresh table has received, with or without an error, it can be printed and read again |
| HeaderParsing.ReadAllStored | net/internet/http/headers.cpp:390-579 | every step of the parser keeps a table fit to be printed |
| HeaderParsing.RoundTrip | net/internet/http/headers.cpp:390-602 | a printed table is read back to its last byte with the same entries in the same order, if and only if it is not longer than 64 KiB |
| HeaderBlocks.BlockExact | net/internet/http/headers.cpp:390-579 | a block is read to its end if and only if it consists of fields, folded or not, and an empty line, and is not too long; a table that does not ignore errors asks besides for one word in a token and for each header once, if it is not a list |
| HeaderBlocks.BlockRead | net/internet/http/headers.cpp:390-579 | the entries are then those of the fields, each with the words of its content and one blank between them, added one after the other; a field without a word is passed over |
| HeaderParsing.ReadSplit | net/internet/http/headers.cpp:390-579 | however the bytes of a header block are split, the parser ends up in the same place |
| Path.ParsePath | net/internet/http/connection.cpp:1002-1351 | the one-pass normaliser gives the result of decoding the path and then folding its segments over a stack; no write goes past the length of the path |
| Path.WalkExact | net/internet/http/connection.cpp:1002-1351 | the walk leaves the root if and only if some beginning has more double dots than segments to go back over; otherwise the segments that remain are those from which no double dots lead back |
| Path.PathExact | net/internet/http/connection.cpp:1002-1351 | so the result is told by the segments between the slashes of the decoded path, with its error and its last slash |
| Path.OutputNormal | net/internet/http/connection.cpp:1002-1351 | its output is empty or starts with a slash, and has no dot segments and no empty ones but the last |
| Url.EncodeUrl | net/internet/url.cpp:515-552 | the encoder produces the encoding, in a buffer three times as long |
| Url.EncodeStrict | net/internet/url.cpp:515-552 | the encoding has only the unreserved characters of section 2.3 of RFC 3986, slashes and escapes, and no escape of one of these |
| Url.EncodeUndone | net/internet/url.cpp:515-552 | encoding a path in normal form and parsing it gives it back, if and only if it is not the single slash |
| Url.ParseEncodeParse | net/internet/http/connection.cpp:1002-1351 | parsing, encoding and parsing again changes nothing, with that exception |
| Ranges.GetRanges | net/internet/http/headers.cpp:60-290 | with its counters that wrap around, the state machine gives the answer to the specs between the commas, which the next rows are about |
| Ranges.WrittenAnswered | net/internet/http/headers.cpp:60-290 | a header of the grammar of section 14.35.1 of RFC 2616 whose numbers are below 2^63 is answered with one range for each spec that asks for some byte, in order, holding just the bytes that it asks for; it is refused if a spec has its bounds the wrong way round or there are more than 16 such ranges |
| Ranges.WrittenTaken | net/internet/http/headers.cpp:60-290 | any header of that grammar is answered so as its numbers are taken, and refused if one of them is seen to be out of range |
| Ranges.AnswerHonours | net/internet/http/headers.cpp:60-290 | what the specs are granted are just the bytes they ask for, a suffix being the last bytes of the file |
| Ranges.ReadExact | net/internet/http/headers.cpp:110-117 | a number is taken for what it is if and only if it is below 2^63 |
| Ranges.ReadBetween | net/internet/http/headers.cpp:110-117 | from there up to 2^64 it is seen to be out of range |
| Ranges.ReadMissed | net/internet/http/headers.cpp:110-117 | 20496382304121724017 is taken for 2049638230412172401 |
| Ranges.AnsweredWritten | net/internet/http/headers.cpp:60-290 | only a header of that grammar is answered |
| Ranges.AnswerSatisfiable | net/internet/http/headers.cpp:60-290 | every range lies in the file, and there are at most 16 |
| Response.Connection.Answer | net/internet/http/connection.cpp:186-312 | for any ranges and any short writes, what the socket has taken is a beginning of the header block and the body, and all of both once the request is completed |
| Response.Connection.ComputeContentLength | net/internet/http/connection.cpp:1630-1659 | it is the length of the body that is sent, with all part headers, slices and the footer |
| ByteRanges.BodyParts | net/internet/http/connection.h:203-213 | the body of several ranges is made of parts that tell its type, its range and the size in digits, and hold just the bytes of the range, in the order of the ranges |
| ByteRanges.PartUnique | net/internet/http/connection.h:203-208 | a part can be read in one way only |
| ByteRanges.BodyRead | net/internet/http/connection.cpp:186-312 | a client that splits the body at the boundary finds these parts if and only if no range has the boundary in its bytes |
| ByteRanges.BoundaryClash | net/internet/http/server.h:110-113 | it does not for a file that begins with the boundary |
| Response.Connection.Writev | net/tcp_connection.cpp:110-166 | what the socket takes is what comes next in the buffers, one after the other |
| FileAnswer.AnswerFile | net/internet/http/connection.cpp:1528-1627 | 416 if and only if the Range header is understood and asks for no byte; otherwise 206 or 200 with a header block that describes the body, followed by the body, whatever the short writes; when a header cannot be added, an error page after the status line of the file |
| FileAnswer.SendPage | net/internet/http/error.cpp:57-150 | the error page comes after what is in the output already, with its length and, for 416, the size of the file; nothing is sent if its own headers cannot be added |
| FileAnswer.StatusTold | net/internet/http/connection.cpp:1528-1545 | the answer begins with the version and the three digits of its status |
| FileAnswer.RangeTold | net/internet/http/connection.cpp:1584-1600 | Content-Range tells the first byte, the last one and the size, in digits |
| FileAnswer.NumbersNamed | net/internet/http/headers.cpp:5-58 | the numbers of the headers are those of their names in the table |
| FileAnswer.AllDescribed | net/internet/http/connection.cpp:1545-1606 | Content-Length is the length of the body and Content-Range the only range; Connection says whether the connection stays open, and date, entity tag and time are those given; with several ranges Content-Type occurs twice |
| FileAnswer.TwoTypes | net/internet/http/connection.cpp:1573-1606 | the Range value `bytes=0-0,1-1` on a file of two bytes gives two Content-Type headers |
| FileAnswer.LookupAdded | net/internet/http/headers.cpp:292-356 | after any additions, a name has the last value given for it |
| FileAnswer.FieldsCanAdd | net/internet/http/connection.cpp:342-383 | the headers can be built if and only if the date, the entity tag, the MIME type and the time can be cleaned |
| Number.Length | util/number.cpp:5-20 | the number of characters that printing the number takes |
| Number.ParseUnsigned | util/number.cpp:82-116 | the loop over a wrapping accumulator, against its specification |
| Number.ParseExact | util/number.cpp:82-116 | parsing is right for every text if and only if the upper bound is below 477218588 |
| Number.FirstMisread | util/number.cpp:99-104 | 4772185884 is taken for 477218588 |
| KeyLists.Search | util/configuration.cpp:785-830 | binary in an ordered list and linear in another, it finds the key or the place to insert |
| KeyLists.Find | util/configuration.cpp:865-896 | the key at the end of the path of names, if all of them are there |
| Configuration.Configuration.Find | util/configuration.cpp:865-896 | the same of a file that has been read to its end |
| KeyLists.AddedArranged | util/configuration.cpp:671-745 | a new key leaves the list arranged |
| Configuration.Configuration.Parse | util/configuration.cpp:78-520 | with its buffers and nested lists, the machine ends up where reading the characters one by one does, which `ConfigurationExact.FileExact` is about |
| Configuration.Configuration.EndParsing | util/configuration.cpp:522-562 | the same for the end of the file |
| ConfigurationExact.FileExact | util/configuration.cpp:78-562 | a file is accepted if and only if it is one of the grammar, with comments, line ends of either kind, braces on the line of the name or after it, quoted values with their escapes, and names that differ in every list; the tree is then the one that the grammar gives it |
| Configuration.Configuration.Load | util/configuration.cpp:7-76 | in whatever blocks it is read, a file is loaded with the tree that it stands for, or refused because it stands for none |
| ConfigurationGrammar.ReadNodes | util/configuration.cpp:78-520 | whatever the grammar allows is read in order and leaves its tree in the list |
| ConfigurationExact.FindFile | util/configuration.cpp:78-520 | and what is read to the end of a line or of a value is of the grammar |
| ConfigurationGrammar.ReadComment | util/configuration.cpp:123-129 | a comment reaches to the newline, and then the state before it is back |
| ConfigurationExact.CommentSkipped | util/configuration.cpp:123-129 | a comment in the first line makes no difference to what a file stands for |
| ConfigurationExact.CommentFirst | util/configuration.cpp:123-129 | the file `#c`, newline, `a=b`, newline has one key |
| ConfigurationGrammar.Characters | util/configuration.h:253-290 | the characters of names and of unquoted values, one by one |
| Configuration.Configuration.PrintAll | util/configuration.cpp:898-971 | what is printed is the text that the round trip is about |
| ConfigurationTrees.AcceptedTree | util/configuration.cpp:78-562 | in the tree of an accepted file, every list at every depth has its names apart and, if it is to be ordered, in order; all names and values can be printed |
| ConfigurationReading.PrintedRead | util/configuration.cpp:78-562 | what print writes is read without error, with the same tree but for values that had to be quoted and keys with an empty value, which are dropped |
| ConfigurationReading.RoundTrip | util/configuration.cpp:898-971 | printing and parsing give the same tree back if and only if no value is empty and no value that needs quotes contains a t, an r or an n |
| ConfigurationTrees.AcceptedRoundTrip | util/configuration.cpp:898-971 | the same for the tree of every accepted file |
| ConfigurationReading.LetterMisread | util/configuration.cpp:951-958 | the value `t `, printed and read, becomes a tab and a blank |
| ConfigurationReading.EmptyValueLost | util/configuration.cpp:898-971 | the tree of the file `a=""`, printed and read, is empty |
| ConfigurationReading.EndAfterValue | util/configuration.cpp:522-562 | a file whose last character ends a value, as a quote or a blank, is accepted if and only if the value is empty and its key is new |
| ConfigurationReading.TrailingBlank | util/configuration.cpp:551-553 | a blank after an unquoted value at the end of the file turns acceptance into rejection |
| ConfigurationReading.QuoteLast | util/configuration.cpp:551-553 | the file `a="b"` is rejected |
| ConfigurationReading.EmptyQuotesLast | util/configuration.cpp:551-553 | the file `a=""` is accepted, with a key that a newline would have dropped |
| ConfigurationReading.BlankLast | util/configuration.cpp:551-553 | the file `a=b` is accepted, and with a blank after it rejected |

## Findings

What the proofs show the code to do other than it promises. The code is modelled as it is.

- **Printing a configuration.** print_value (util/configuration.cpp:951-958) puts a backslash before the letters t, r and n
  where it means the tab, the carriage return and the newline, so they come back as those (`LetterMisread`); a key with an
  empty value, which the file `a=""` leaves behind, is printed but not read again (`EmptyValueLost`).
  `ConfigurationReading.RoundTrip` is the exact condition, for every tree that can be printed, and
  `ConfigurationTrees.AcceptedRoundTrip` for every accepted file.
- **The end of a configuration file.** end_parsing (util/configuration.cpp:551-553) adds the key of the last value although
  the blank or the quote after a value that is not empty has already added it. `ConfigurationReading.EndAfterValue` is the
  exact condition; `QuoteLast`, `BlankLast` and `EmptyQuotesLast` are the smallest files.
- **Timers at the wrap-around.** handle_expired (timer/timers.cpp:11) compares with `<` on the unsigned numbers where the
  tree uses the wrapping difference. Before the clock wraps around, new timers fire at once; after it, overdue ones do not,
  and hold back all behind them. `TcpServer.ExpiryExact` is the exact condition for the whole loop, `Timers.ExpiryTestExact`
  for one comparison; `ClosedAtOnce` and `KeptOverdue` are two servers, `FiresEarly` and `BlocksOthers` the smallest trees.
- **Parsing a number.** number::parse (util/number.cpp:99-104) misses the wrap-arounds that end above the last value;
  `Number.FirstMisread` is the first one. `Number.ParseExact` says for which upper bounds this cannot be seen; the callers
  pass 65535.
- **Large numbers in a Range header.** The same test on a signed off_t (net/internet/http/headers.cpp:112, 155 and 222): what
  it sees makes the whole header refused where the range is merely unsatisfiable, and it does not see all
  (`Ranges.ReadMissed`). `Ranges.ReadExact` is the exact condition.
- **Several ranges.** The answer has two Content-Type headers (net/internet/http/connection.cpp:1573 and 1606), because add
  does not replace, and Content-Type is not marked as a list. `FileAnswer.AllDescribed`: exactly with two ranges or more;
  `TwoTypes` is the smallest case.
- **The boundary of several ranges.** It is a counter (net/internet/http/server.h:110-113) and not looked for in the file, so
  a range may have it in its bytes, and a client splits the body in the wrong places: `ByteRanges.BodyRead` is the exact
  condition, `BoundaryClash` such a file.
- **An error after the status line.** The status line of a file is in the output before its headers are added
  (net/internet/http/connection.cpp:1528-1545); if one of them cannot be added, the error page follows it, and the client
  gets two status lines: `FileAnswer.AnswerFile`.
- **Carriage returns in a request line.** After the address and a blank, any number of carriage returns counts as more
  blanks (net/internet/http/connection.cpp:897-899): `LineGrammar.SpacePart` in the grammar of `LineWriting.LineExact`;
  `LineWriting.ReturnsRead` is a line of this kind.

## Left out

- Memory of the tree: nodes are addresses in a map from addresses to links, not objects, so that the sentinel and the
  stock of erased nodes can be written to as in the code; malloc returns any address that is not in use and never fails.
- The tree's previous, end and the erase by key: mirror images and combinations of what is there.
- FdSet: the type and the handler of a descriptor, and the branch for a handler that is NULL, are not kept.
- TcpServer: sees the selector through its sequence of entries; that the arrays hold that sequence is `PollSelector`'s part.
- TcpServer.TcpServer.Run: what a connection does with its timer and its events is an arbitrary script, which covers what
  the HTTP states do, but does not join `Serving` to the timers.
- Serving.Session.Run: what the site answers to the n-th request is any function of n; the choice of virtual host and file
  is not modelled, and `FileAnswer` is not joined to it. Bytes that arrive while an answer is being sent wait.
- Receiving.Receiver.Answer: add_common_headers is called once for an answer; when a header of a file's answer cannot be
  added, the code calls it again for the error page and counts the request twice.
- LineParsing.LineParser: offsets are unbounded here and 16 bits wide in the code, where the line limit keeps them in range.
- RequestLine.KnownMethod and RequestLine.OtherScheme: the binary searches in the tables of methods and schemes are further
  copies of the one in `HeaderNames.SearchStandard`, and are lookups here.
- Headers: values and names are texts here and offsets into one buffer in the code; the buffer's growth is left out.
- Number.ParseUnsigned: the versions for other widths are copies of this one.
- Ranges.GetRanges: an off_t that overflows is taken to wrap around, which the C++ standard does not promise.
- Number.Length: for the smallest off_t, whose negation overflows, nothing is promised.
- Configuration: the nesting of key lists is a stack of lists instead of pointers between them; the line counter and
  the iterators are left out.
- Configuration.Configuration.Load: is about a configuration without keys; the code adds to the keys that there are.
- Path.ParsePath: does not track the offset of the file extension, which the code leaves unset for a first segment without
  a dot.
- FileAnswer.AnswerFile: the dates and the entity tag are texts that are given; If-Modified-Since, directories and
  index files are left out.
- Response.Connection: corking, TLS and the secure variants of read, write and sendfile are left out.
- The epoll, kqueue, port and select back ends, date parsing, url::parse, virtual hosts, MIME types, directory listings
  and the text of error pages are left out.

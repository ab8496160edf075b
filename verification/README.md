# crinha: verification model

A Dafny model of the C server for the "rinha de backend" 2024 ledger, with proofs. The
server answers `POST /clientes/{id}/transacoes` and `GET /clientes/{id}/extrato`. Several API
processes share one PostgreSQL database. Each process is serial, owns one connection, reads
the client row, tests the limit itself, sends the two-statement batch (`update`, `insert`)
without waiting for its result, and answers 200 with a balance computed locally. The result
is drained when the connection is next used; the last guard is `chk_saldo`.

Check everything with `dafny verify dfyconfig.toml`.

## How it is organised

- `Protocol` is the shared ledger as a transition system: any number of connections, and one
  action for each step of a process (drain and read, test and send, answer) and of the server
  (begin, lock the row, update, check, insert, commit; every abort). `AtomicLedger` is the
  sequential ledger it is compared with. `ProtocolInvariant` and `ProtocolHistory` hold what
  every action keeps; `Guarantees` (any number of processes), `OneProcess`, `Progress`, `Keys`,
  `Dates` and `Statement` hold the results. `Schedules` builds concrete runs, and `Counterexamples` uses
  them to show what fails.
- `SqlText` is the string constant that the insert pastes `descricao` into, as the server reads it.
- `LastTen` is the `order by realizada_em desc limit 10` query as a relation (ties are free)
  with a reference execution, and the sums of the audit query in `init.sql`.
- `PollTable` is the poll slot array and the scan that changes it while walking it.
- `HttpParser` is request assembly in the two fixed buffers and the read loop.
- `Regex` and `Router` are route matching, the search for the id, and the route table.
- `ClienteController`, `Repositories`, `DbConnection`, `Responses`, `Json` are the handlers,
  the row decoding and copy loop, the drain before a send, and the printed responses;
  `ControllerProtocol` ties the handlers to the steps of the protocol, and `EndToEnd` joins
  parser, router, handlers and protocol.
- `Sequences`, `Machine`, `Decimal`, `CStrings`, `Utf8`, `Entities`, `Saldo` hold integer widths, printing
  and `atol`, NUL-terminated strings, UTF-8, the records, and the balance arithmetic.

## What is assumed

- PostgreSQL: a query string of several statements is one implicit transaction (section
  "Multiple Statements in a Simple Query" of the protocol chapter). An UPDATE under Read
  Committed waits for the row lock and then works on the latest committed row (section 13.2.1).
  The foreign key check takes no lock that another UPDATE of `saldo` waits for. Text that is
  not valid UTF-8, or whose last string constant has no end, is refused before any statement
  runs. Server and client encoding are UTF-8, and `standard_conforming_strings` is on, so that a
  backslash is an ordinary character.
- No `descricao` that is sent closes its string constant early (`AtomicLedger.StaysInPlace`).
  The one-transaction rule above holds for the two statements alone, not for what such a text
  adds to them; so the protocol has no step that sends one. Rows marked * rest on this.
- libpq: the connection stays up; PQexec and the drain loop wait for the query in flight.
- Signed 64-bit arithmetic wraps (two's complement). C leaves signed overflow undefined, so this
  is an assumption about the compiler; the proofs say when no wrap happens. `json_pack`'s `i`
  reads an `int`, so a printed balance is the low 32 bits of the 64-bit one.
- The kernel: `poll` reports nothing for a slot without a descriptor, and `accept` gives a
  descriptor that is not in use.
- llhttp: after a callback has failed, every later call fails too (as its header documents).
- A C string is a Dafny string with one char for each byte.

## False as commonly stated

- "A 200 means the transaction is kept" fails with two processes
  (`Counterexamples.DebitCanBeLost`), and with one for a text that holds a quote or a `valor` past
  2^31 - 1 (`Counterexamples.QuoteIsLost`, `Counterexamples.WideValorIsLost`).
  `Guarantees.VerdictByText` gives the exact condition for every text that is sent.
- "A query string is the two statements" fails for a text that closes its string constant early,
  that is, whose first unpaired quote has a character behind it
  (`ClienteController.EarlyCloseAccepted`); `SqlText.PastedEnds` gives the exact condition, and
  `AtomicLedger.ReadsDetermined` says that these are the texts the protocol does not send.
- "What is stored is what was sent" fails for a doubled quote
  (`Counterexamples.DoubledQuoteIsHalved`); `SqlText.PastedText` gives the exact condition.
- "Accepted text can be stored" fails for text with a quote and for text cut inside a code point
  at byte 20 (`ClienteController.AcceptedNotStorable`, `ClienteController.CutCanSplit`);
  `ClienteController.RequestStorable` gives the exact condition.
- "The balance in a 200 is the one its batch leaves" fails when other processes commit in
  between (`Counterexamples.AnnouncedBalanceIsStale`); `Guarantees.AnnouncedBalance` gives the
  exact condition.
- "The answer shows the balance" fails past 2^31 - 1 (`Counterexamples.PrintedBalanceWraps`);
  `ClienteController.AnswerShowsRow` gives the exact condition.
- "The limit test is exact" fails where the 64-bit subtraction wraps
  (`Counterexamples.LimitTestWraps`); `Saldo.MachineTestExact` gives the exact condition.
- "The URL parameter fits its buffer" fails for 128 digits or more (`Router.LongIdOverruns`);
  `Router.RoutedParam` gives the exact condition. The model stops there.
- "The NUL behind a read is inside the read buffer" fails for a read of 1024 bytes
  (`HttpParser.FullReadOverruns`); `HttpParser.Parser.SocketRead` stops there and nowhere else.
- "Every POST gets a response" fails for a valid `descricao` without a string `tipo`
  (`ClienteController.MissingTipo`); `ClienteController.HandleSave` gives the exact condition.

## Model

Rows marked * rest on the precondition that no text that is sent closes its string constant
early (see "What is assumed").

| member | source | states |
|---|---|---|
| Guarantees.ActionRefines | src/repository/transacao_repository.c:90-104 | every step of any interleaving leaves the committed tables alone, except the one that ends a batch, which does to them what the atomic ledger does with the whole batch * |
| Guarantees.Refinement | src/repository/transacao_repository.c:87-108 | in every reachable state the tables are those of the atomic ledger run on the ended batches in order; commit or abort is that ledger's verdict on the batch as the server reads it * |
| Guarantees.Conservation | stack/init.sql:1-32 | in every reachable state saldo is initial saldo plus committed credits minus committed debits, saldo >= -limite, limits never move, and the rows of transacao are exactly those of committed batches * |
| AtomicLedger.ApplyConserves | stack/init.sql:1-16 | one batch of the atomic ledger keeps the table constraints and the audit sum |
| Guarantees.VerdictFromRead | src/controller/cliente_controller.c:94-111 | for any number of processes a batch answered 200 commits if and only if what the server reads fits the columns and the row its process read, moved by what committed since, admits it * |
| Guarantees.VerdictByText | src/repository/transacao_repository.c:90-104 | a batch commits if and only if valor fits its column, descricao is valid UTF-8 with all quotes in pairs and the moved row admits it; it is stored as it was sent if and only if there is no quote * |
| Guarantees.CreditCommits | src/controller/cliente_controller.c:94-99 | a credit answered 200 commits if and only if it can be stored and the balance stays a bigint * |
| Guarantees.DebitCommits | stack/init.sql:6 | a debit answered 200 commits if and only if it can be stored and what is left is a bigint and not below -limite * |
| Guarantees.DebitAbortNeedsRival | src/controller/cliente_controller.c:94-99 | a debit that can be stored and fits the row as read aborts only if another connection committed a debit on the same client after that read * |
| Guarantees.AnnouncedBalance | src/controller/cliente_controller.c:98-104 | the balance a 200 announces is the one its batch leaves if and only if what was committed on that client between read and batch sums to nothing * |
| Guarantees.BalanceMoves | src/repository/cliente_repository.c:14-35 | a client row at any later point is the row that was read plus the net of the rows committed in between * |
| Counterexamples.DebitCanBeLost | src/controller/cliente_controller.c:94-104 | a run from init.sql in which two processes both answer 200 to a debit of the whole limit and the second batch aborts |
| Counterexamples.AnnouncedBalanceIsStale | src/controller/cliente_controller.c:98-104 | a run from init.sql in which two credits of 100 commit, the second answer announces 100 and the row holds 200 |
| Counterexamples.QuoteIsLost | src/repository/transacao_repository.c:92-97 | a run of one process in which a credit whose text is one quote is answered 200 and refused by the server |
| Counterexamples.DoubledQuoteIsHalved | src/repository/transacao_repository.c:92-97 | a run of one process in which a text of two quotes is stored as one |
| Counterexamples.WideValorIsLost | src/controller/cliente_controller.c:169-171 | a run of one process in which a credit of 2^31 is answered 200 and aborted by the column |
| Counterexamples.PrintedBalanceWraps | src/controller/cliente_controller.c:224-229 | a run of one process in which the balance is 2^31 and the printed answer reads back as -2^31 |
| Counterexamples.LimitTestWraps | src/controller/cliente_controller.c:173-180 | a run of one process in which a debit of 2^63 - 1 on a balance of -2 passes the wrapped 64-bit test, is answered 200 and aborts |
| Guarantees.ReadYourWrites | src/util/db_connection.c:68-108 | on each connection batches end in answer order, at most one is pending, and every read follows the end of every batch answered before it * |
| Guarantees.StatementPrefixes | src/controller/cliente_controller.c:131-136 | an extrato's saldo is the balance after some prefix of the committed history and its list is a last-ten answer over an equal or longer prefix * |
| Guarantees.StatementExplained | src/controller/cliente_controller.c:131-136 | with at most ten rows, initial saldo plus the listed rows equals the saldo plus what was committed between the two reads * |
| Guarantees.NothingBetweenReads | src/controller/cliente_controller.c:131-136 | with one process nothing is committed between the two reads of an extrato * |
| Guarantees.StatementExact | src/controller/cliente_controller.c:131-136 | with one process and at most ten rows the saldo of an extrato is the initial saldo plus the signed sum of the rows it lists * |
| Guarantees.NoOverflow | src/controller/cliente_controller.c:173-180 | while the committed rows leave room for one more 32-bit amount, the 64-bit limit test and balance update equal integer arithmetic * |
| Guarantees.NoOverflowFromInitSql | stack/init.sql:9-25 | starting from the five clients this holds for as long as a serial key can number the rows * |
| OneProcess.Linearizable | src/controller/cliente_controller.c:94-136 | with one process every answer (200, 422, 404, extrato with saldo and list) is that of a sequential ledger that posts each batch at the moment it is answered * |
| OneProcess.ExtratoListsLatest | src/repository/transacao_repository.c:17-18 | with one process and a clock that never gives a time twice, an extrato lists exactly the last ten transactions of the client that the sequential ledger took before it, the last one first * |
| OneProcess.ExtratoDates | src/repository/transacao_repository.c:17-18 | with one process and a clock that does not go back, the dates of the list are those of the last ten committed rows of the client, the last one first * |
| Dates.RowDate | stack/init.sql:15 | in every run of any number of processes the date of a committed row is the time at which the server took that row's own batch * |
| OneProcess.AnsweredIsCommitted | src/controller/cliente_controller.c:94-104 | with one process a batch answered 200 commits if and only if it can be stored and the new balance is a bigint; the row is then the one the answer announced * |
| OneProcess.DrainedTable | src/util/db_connection.c:97-108 | once nothing is pending, tables cliente and transacao are that sequential ledger, row by row, and every batch answered 200 has ended * |
| Keys.DistinctKeys | stack/init.sql:9-10 | in every reachable state of any number of processes the ids of the committed rows are pairwise distinct * |
| Progress.NoDeadlock | src/repository/transacao_repository.c:92-104 | every pending batch can go on, or waits for the one row lock it needs whose holder can go on * |
| Progress.ServerRunsAreShort | src/repository/transacao_repository.c:92-104 | without new sends each server step lowers a measure, so the server stops within six steps for each connection * |
| Progress.StuckMeansDrained | src/util/db_connection.c:97-108 | the server can go no further if and only if nothing is pending; then every batch answered 200 has committed or aborted * |
| Progress.CanDrain | src/util/db_connection.c:100-102 | from every state the invariant allows, server steps alone bring every pending batch to its end * |
| ProtocolHistory.ReachableInv | src/controller/cliente_controller.c:64-122 | every reachable state satisfies the protocol invariant: locks, phases, reads, order of answers * |
| ProtocolInvariant.ActionKeepsCore | src/repository/transacao_repository.c:87-108 | each single action keeps tables, row locks, batch phases and process phases consistent * |
| Saldo.LimitTestAgainstCheck | src/controller/cliente_controller.c:173-180 | the local test refuses only what chk_saldo would refuse on the same row, and what it lets through the UPDATE accepts exactly when the result is a bigint |
| Saldo.MachineTestExact | src/controller/cliente_controller.c:173-180 | under wrapping arithmetic the machine test of a debit is right if and only if the subtraction stays in 64 bits |
| ClienteController.AnswerShowsRow | src/controller/cliente_controller.c:224-229 | a client that reads the printed answer finds limit and balance of the row that the UPDATE leaves if and only if both fit 32 bits |
| LastTen.QueryAnswers | src/repository/transacao_repository.c:17-18 | sorting by date and cutting at ten answers the query: min(10, n) rows of the client, latest first, none left out that is strictly later |
| LastTen.DatesDetermined | src/repository/transacao_repository.c:17-18 | any two answers to the query carry the same dates position by position; only rows of equal date are interchangeable |
| LastTen.LatestOnly | src/repository/transacao_repository.c:17-18 | if no two dates are equal and rows are stored in their order, the last ten of the client, last one first, are the only answer |
| LastTen.LatestAnswers | src/repository/transacao_repository.c:17-18 | if rows are stored in the order of their dates, the last ten of the client, last one first, answer the query |
| LastTen.RowsOfCount | src/repository/transacao_repository.c:17-18 | the rows of a client are exactly its rows in the table, each as often as it is there |
| LastTen.CompleteList | src/repository/transacao_repository.c:17-18 | with at most ten rows the list is all rows of the client, so its sum is theirs |
| SqlText.PastedText | src/repository/transacao_repository.c:92-97 | the pasted constant ends where the format string ends it if and only if every quote is in a pair, and reads back as the text if and only if there is no quote |
| SqlText.PastedEnds | src/repository/transacao_repository.c:92-97 | a text closes its constant early if and only if its first unpaired quote has a character behind it, and leaves it open if and only if that quote is its last character |
| SqlText.ValueBounds | src/repository/transacao_repository.c:92-97 | where the constant ends in place, its value has no more code points than the text and no NUL |
| SqlText.EscapedReadsBack | src/repository/transacao_repository.c:92-97 | a text with every quote doubled reads back as it was, with nothing left over |
| SqlText.ReadingEscaped | src/repository/transacao_repository.c:92-97 | a text whose quotes stand in pairs is the escaped form of what the server reads |
| AtomicLedger.ReadsByText | src/repository/transacao_repository.c:92-97 | the request alone decides whether it can be stored: valor in 32 bits, valid UTF-8, quotes in pairs; and it is stored as sent if and only if there is no quote |
| AtomicLedger.ReadsDetermined | src/repository/transacao_repository.c:92-97 | what the server reads is determined by the text, and is defined exactly for a text that does not close its constant early |
| Repositories.FindLast10 | src/repository/transacao_repository.c:25-47 | the copy loop fills one record for each result row, decoded column by column through atoi, atol and strzcpy |
| Repositories.RowRoundTrip | src/repository/transacao_repository.c:31-38 | a stored row printed by the server and decoded by the loop has every field equal to the stored one |
| Repositories.ListRoundTrip | src/repository/transacao_repository.c:13-48 | each record of the returned array is a row of that client in the table, unchanged |
| Repositories.ClienteRoundTrip | src/repository/cliente_repository.c:26-31 | limite and saldo, negatives included, survive the text protocol |
| Statement.StatementInBuffer | src/controller/cliente_controller.c:124-149 | for every extrato answered in any run the records equal the stored rows and the response fits its 2048-byte buffer * |
| PollTable.RunKeepsStep | src/server/server.c:115-161 | over every run of the loop slot 0 holds the listening socket, descriptors are distinct, and the open client sockets are exactly those in slots 1 to 15 |
| PollTable.RunClosesOnce | src/server/server.c:137-157 | over every run each accepted socket is closed at most once and is in a slot until then |
| PollTable.RunServes | src/server/server.c:126-151 | in every run, a client that poll reports as readable is read once in that turn and closed right after |
| PollTable.TurnServes | src/server/server.c:134-158 | a turn reads a client if and only if it is readable, once and right before it is closed; it closes a client and frees its slot if and only if anything is reported for it |
| PollTable.TurnAccepts | src/server/server.c:138-145 | a turn accepts if and only if the listening socket is readable, a slot is free and the kernel has a new descriptor; the socket then stands in a client slot |
| PollTable.NewSocketUntouched | src/server/server.c:134-158 | a socket accepted in a pass is neither served nor closed in that pass |
| PollTable.NewSocketKept | src/server/server.c:139-142 | poll_push after an accept finds a slot, and the new socket still has it when the pass ends |
| PollTable.ScanKeepsStep | src/server/server.c:134-159 | at each point of the scan table and open sockets agree although the scan inserts and clears slots |
| PollTable.ClosedOnce | src/server/server.c:147-149 | in a legal history accepts and closes of a descriptor differ by one exactly while it is open |
| PollTable.SocketLoop.constructor | src/server/server.c:122-124 | after poll_init and the first poll_push only slot 0 is taken |
| PollTable.SocketLoop.Push | src/server/server.c:63-77 | the first free slot gets the descriptor and revents 0, unless the table is full; the counter stays the number of occupied slots exactly unless -1 is pushed |
| PollTable.SocketLoop.Pop | src/server/server.c:79-86 | the slot of the descriptor is freed; the counter goes wrong exactly if a free slot is popped |
| PollTable.SocketLoop.ScanSlot | src/server/server.c:135-158 | one slot of the scan: accept and insert at slot 0, serve and close or close elsewhere |
| PollTable.SocketLoop.Scan | src/server/server.c:134-159 | the in-place scan computes the specified table and events and keeps the loop invariant |
| PollTable.SocketLoop.Run | src/server/server.c:126-160 | any number of turns of the loop keeps the invariant, nfds included, and follows the specified run |
| HttpParser.AssemblyOfWhole | src/server/http_parser.c:10-34 | for every split into NUL-free fragments the appends give exactly the whole text if and only if the total fits |
| HttpParser.AssemblyStops | src/server/http_parser.c:13-16 | if the total does not fit, one fragment is rejected and the earlier ones stay in the buffer |
| HttpParser.FragmentationIrrelevant | src/server/http_parser.c:10-34 | two fragmentations of one text give the same verdict and the same buffer |
| HttpParser.ExactWithoutNul | src/server/http_parser.c:10-34 | when all fragments fit, the buffer holds their concatenation if and only if none contains a NUL |
| HttpParser.SequenceOfRequests | src/server/server.c:95-113 | of requests that end at read boundaries the router gets exactly those before the first that does not fit its buffers, as sent; all of them, and a fresh parser, if and only if all fit |
| HttpParser.PartsFail | src/server/http_parser.c:10-34 | NUL-free fragments of one request put the parser in its error state if and only if the url or the body does not fit in total |
| HttpParser.FailureIsFinal | src/server/http_parser.c:81-87 | after a rejected fragment nothing is dispatched any more |
| HttpParser.Parser.OnUrl | src/server/http_parser.c:10-21 | appends at the strlen cursor within the 257-byte buffer, or rejects and changes nothing, exactly at a total over 255 |
| HttpParser.Parser.OnBody | src/server/http_parser.c:23-34 | the same for the body, exactly at a total over 1024 |
| HttpParser.Parser.OnUrlParts | src/server/http_parser.c:10-21 | the callbacks on the real buffer compute the specified assembly |
| HttpParser.Parser.OnBodyParts | src/server/http_parser.c:23-34 | the callbacks on the real buffer compute the specified assembly |
| HttpParser.Parser.Reset | src/server/http_parser.c:91-99 | clearing the first byte of each buffer makes both texts empty and the message incomplete |
| HttpParser.Parser.SocketRead | src/server/server.c:95-113 | the read loop on the real buffers hands the router the specified requests, up to the first read that fills the buffer |
| HttpParser.Parser.Recv | src/server/server.c:96-101 | the NUL behind a read is inside the buffer if and only if fewer than 1024 bytes were read |
| HttpParser.FullReadOverruns | src/server/server.c:96-101 | a request that fits both request buffers and comes in one read of 1024 bytes |
| CStrings.StrZCpy | src/util/string_util.c:11-15 | writes the string cut at size, NUL padding and a NUL at dest[size], and nothing else |
| Utf8.Utf8Strlen | src/util/string_util.c:17-26 | the loop counts the bytes that are not continuation bytes |
| Utf8.CountEncode | src/util/string_util.c:17-26 | on every valid encoding that count is the number of code points |
| Utf8.CountConcat | src/util/string_util.c:17-26 | the count is additive over concatenation, so cutting never raises it |
| Utf8.CutValid | src/util/string_util.c:11-15 | a valid text cut after n bytes is valid if and only if the cut splits no code point |
| Utf8.ValidOctets | src/controller/cliente_controller.c:92 | a text is valid if and only if it is made of the byte sequences that section 4 of RFC 3629 allows |
| Utf8.EncodeOneChar | src/util/string_util.c:17-26 | each code point is encoded as one of these sequences, and its bits are in it |
| Utf8.EncodeInjective | src/util/string_util.c:17-26 | two texts of code points with the same bytes are the same |
| Decimal.PrintAtolRoundTrip | src/repository/cliente_repository.c:28-30 | every integer, negatives included, survives decimal printing and atol |
| Decimal.DigitText | src/controller/cliente_controller.c:130 | the ten digit characters stand for their code minus 48 and are printed so |
| Decimal.Positional | src/controller/cliente_controller.c:130 | the number of a digit text is positional: that of the front times a power of ten plus that of the rest |
| Regex.BetweenMatches | src/controller/cliente_controller.c:25-26 | the patterns match exactly the strings made of their prefix, characters of the class and their suffix |
| Router.ExtractIsSearch | src/controller/cliente_controller.c:202-206 | on every URL the digits found are the inside of the leftmost-longest match, or empty if there is none |
| Router.ExtractUrlParam | src/controller/cliente_controller.c:191-222 | the copy into the 128-byte buffer holds the digits found and a NUL if there are at most 127, and otherwise would leave the buffer |
| Router.RoutedParam | src/controller/cliente_controller.c:206-222 | for every routed URL the copy stays inside the buffer if and only if the segment is not all digits or has at most 127; the buffer then holds the whole segment, or nothing |
| Router.UrlToId | src/controller/cliente_controller.c:124-155 | the lookup runs if and only if the segment is one to nine digits, with the number they denote, which fits 32 bits; the buffer is overrun if and only if it is 128 digits or more |
| Router.LongIdOverruns | src/controller/cliente_controller.c:206 | a routed URL of at most 255 bytes whose 128 digits do not fit the buffer |
| Router.RouteMatches | src/server/router.c:35-47 | a URL matches a route if and only if it is /clientes/, segment characters and the suffix |
| Router.SegmentChars | src/controller/cliente_controller.c:25 | the bracket expression accepts exactly the letters, the digits, backslash and hyphen |
| Router.Routing | src/controller/cliente_controller.c:28-56 | with the two registered routes method and URL decide the handler exactly as the patterns say |
| Router.DigitsOnly | src/controller/cliente_controller.c:182-189 | true if and only if every character is a digit |
| Router.RouteTable.RoutesLen | src/server/router.c:11-15 | counts the routes before the NULL sentinel |
| Router.RouteTable.AddRoute | src/server/router.c:17-24 | appends the route; the table keeps its sentinel if and only if fewer than nine routes were there |
| Router.RouteTable.Dispatch | src/server/router.c:49-60 | calls the handler of the first registered route with that method whose pattern matches |
| ClienteController.HandleSave | src/controller/cliente_controller.c:64-122 | each status, and each of the two ways to leave defined behaviour, if and only if its test decides; a batch is sent exactly with a 200 and is the requested transaction |
| ControllerProtocol.SaveFollowsProtocol | src/controller/cliente_controller.c:94-115 | on the committed clients of any state of the protocol, a POST that passes the checks gets the response that shows the answer of the two protocol steps and sends the batch that they send * |
| ControllerProtocol.SaveWithoutAsking | src/controller/cliente_controller.c:68-74 | a POST that fails a check sends nothing and gets a response that does not depend on the database |
| ClienteController.MissingTipo | src/controller/cliente_controller.c:83-84 | a body with a valid descricao and no tipo reaches strlen of a null pointer |
| ControllerProtocol.FindFollowsProtocol | src/controller/cliente_controller.c:124-149 | the extrato response shows the protocol's answer, balance and decoded rows, even if others commit between its two queries |
| ControllerProtocol.FindWithoutClient | src/controller/cliente_controller.c:131-145 | without such a client the 404 shows the answer of the protocol's read |
| EndToEnd.DispatchedAsSent | src/server/server.c:100-112 | a request reaches the router as it was sent if and only if it and all requests before it fit the buffers |
| EndToEnd.PostIsServed | src/controller/cliente_controller.c:64-122 | a POST that is sent in fragments on the route of a one- to nine-digit id reaches the save handler, and any response that handler may give is the protocol's answer for exactly that id and body * |
| EndToEnd.GetIsServed | src/controller/cliente_controller.c:124-149 | a GET on the extrato route of such an id reaches the find handler, and its response is the protocol's answer for exactly that id, or 404 |
| EndToEnd.CreditIsAnswered | src/controller/cliente_controller.c:88-105 | a credit of an existing client gets a 200 with the balance plus the amount, and exactly that credit is sent |
| EndToEnd.DebitIsAnswered | src/controller/cliente_controller.c:88-111 | a debit gets a 200 with the balance minus the amount if and only if that is not below -limite, and exactly that debit is sent; otherwise a 422, and nothing is sent |
| EndToEnd.SaldoIsReceived | src/controller/cliente_controller.c:58-62 | from the bytes of a 200 to a POST a client reads limit and balance, each as its low 32 bits |
| EndToEnd.ExtratoIsAnswered | src/controller/cliente_controller.c:131-143 | the extrato of an existing client is its row and, for each row of the second query in order, a record with all stored fields |
| EndToEnd.ExtratoIsReceived | src/controller/cliente_controller.c:231-265 | from the bytes of an extrato a client reads balance, date, limit and every record with its fields, in order |
| EndToEnd.RequestLines | src/controller/cliente_controller.c:28-29 | GET /clientes/42/extrato and POST /clientes/42/transacoes go to their handlers, with id 42 |
| ClienteController.ClienteRecord.UpdateSaldo | src/controller/cliente_controller.c:267-273 | the record gets the balance that the UPDATE computes on the row it was read from, modulo 2^64; where the UPDATE succeeds it is the row that is left |
| ClienteController.AcceptedIsValid | src/controller/cliente_controller.c:83-92 | what passes the three checks and the 20-byte copy is a transaction the protocol takes; the copy has at most ten code points |
| ClienteController.AcceptedBodies | src/controller/cliente_controller.c:153-171 | a body is accepted if and only if descricao has one to ten code points, tipo is "c" or "d" and valor is an integer of at least 1 |
| ClienteController.CutTextValid | src/controller/cliente_controller.c:92 | the copied text is valid UTF-8 if and only if byte 20 does not fall inside a code point |
| ClienteController.RequestStorable | src/controller/cliente_controller.c:83-97 | an accepted request is stored as it was accepted, cut at 20 bytes, if and only if valor fits the integer column, no code point is split and no quote is left in the text |
| ClienteController.AcceptedNotStorable | src/controller/cliente_controller.c:83-97 | a text of one quote, and a valor of 2^31, pass the checks and cannot be stored |
| ClienteController.EarlyCloseAccepted | src/controller/cliente_controller.c:83-97 | a text of ten bytes passes the checks and closes its constant early, with more SQL behind it |
| ClienteController.NarrowTextWhole | src/controller/cliente_controller.c:157-163 | text without code points above U+07FF is copied whole, and the server reads it as sent if and only if it holds no quote |
| ClienteController.CutCanSplit | src/controller/cliente_controller.c:92 | seven euro signs pass the checks and the text sent is not valid UTF-8 |
| DbConnection.PGconn.ExecuteAsync | src/util/db_connection.c:97-108 | the drain makes the send succeed; all earlier queries have ended and this one alone is in flight |
| DbConnection.PGconn.ExecuteQuery | src/util/db_connection.c:68-83 | after a query every query sent on the connection has ended |
| DbConnection.ResultSet.constructor | src/util/db_connection.c:110-132 | the nested loops copy every field of every row into fresh memory |
| Responses.SaldoReadBack | src/controller/cliente_controller.c:224-229 | a client that reads the printed answer to a POST finds one JSON object with limite and saldo, each as the low 32 bits |
| Responses.ExtratoReadBack | src/controller/cliente_controller.c:231-265 | a client that reads the printed extrato finds one JSON object with balance, date, limit and every row with its four fields, in order |
| Json.LoadDump | src/controller/cliente_controller.c:137 | every value that is printed is read back as it was, escapes included, with nothing left over |
| Responses.DeclaredLength | src/controller/cliente_controller.c:58-62 | a receiver that splits the header lines off finds the body and reads its byte count in Content-Length |
| Responses.StatementFits | src/controller/cliente_controller.c:137-138 | a statement of at most ten rows and its header fit 2048 bytes with the terminator, at any numbers and escapes |
| Responses.SaldoFits | src/controller/cliente_controller.c:100-102 | the answer to a POST fits its 256-byte buffer |

## Left out

- AtomicLedger.Reads: is not defined for a text that closes its constant early. The SQL that such a
  text adds is not parsed; it can insert rows, start or end a transaction, or fail. The rows marked *
  do not cover a run in which one is sent, neither that batch nor any later one.
- What the C program does after a write outside a buffer or a read of a null pointer: the model
  stops there, at exactly the inputs named above.
- Failing queries, PQreset, connect retries and a failing PQsendQuery: the connection stays up.
- The end of the 32-bit sequence behind `transacao.id`.
- ClienteController.HandleFind: its database answers both queries from values given in advance;
  `ControllerProtocol.FindFollowsProtocol` lets others commit between them.
- Repositories.FindLast10: the three character arrays of a record are values after the copy, so
  aliasing between records is not modelled. Freeing of results, rows and records is left out.
- PollTable.SocketLoop.Run: takes any finite number of turns; the signal that ends the loop and
  the bytes that recv and send move are left out. revents is NONE, not arbitrary, before the first poll.
- Several requests that end inside one read, and a connection that leaves the shared parser in
  the middle of a message.
- Clock formatting: dates are plain texts that fit their fields.
- llhttp, jansson's parser (the reader in `Json` stands for a client's), libpq's wire protocol,
  logging, nginx, docker, environment variables.
- `transacao_repo_insert` (no route reaches it), `array_list.c`, `uuid_util.c`, `log.c`,
  `env_util.c`: they would only add easy members.

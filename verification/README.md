# Flood, modelled and proved

Apache flood is an HTTP load tester. A farm starts farmers, a farmer runs
profiles, a profile requests a list of URLs in rounds over one connection and
judges the responses. This project models the parts of it that carry hard
invariants, as imperative Dafny methods proved against pure specifications,
and proves what those specifications mean.

Four groups of modules follow the program:

- **Keep-alive framing.** `Net` is the socket: a byte stream handed out in
  pieces of any size the network chooses. `Headers` walks the head of a
  response, `ChunkSize` and `Chunked` scan the first buffer and drain the
  socket of a chunked body (section 3.6.1 of RFC 2616), `ResponseBuffer` grows
  the stored response, `Receive` puts them together. The main results are
  `Chunked.ChunkedFraming`, `Receive.ReceiveResponse` and `Receive.ReceiveRun`:
  a reused connection stands exactly at the next response if and only if the
  response is framable, a condition on where the first read ended.
- **URL lists.** `SubstFile` picks random lines, `Unescape` decodes them in
  place, `Template` expands `${name}`, `SequenceList` and `Sequences` count and
  fill the slots of nested sequences. `Scope` and `ScopeExact` say exactly when
  the one mutable hash behaves as lexical scope does: a static walk over the
  tree decides it. `Cookies` is the cookie jar.
- **Runs.** `Events` chooses the handlers, `Connections` opens and closes,
  `Reports` judges and counts, `Runs` is the event loop with its schedule.
- **Farms.** `Farmers` is the count-driven loop over profiles, `Farms` the two
  passes over the farm's children, `FarmRuns` the paced start, the joins, and
  the conservation of work over all interleavings of the threads.

`CText` and `Numbers` are the C library searches and `strtol`.

The outside world is a parameter everywhere: the network is a function from
bytes left and bytes asked for to bytes offered, a failing read reports any
length, buffers start with any content, and each event of a run, each
thread creation and each join gets an arbitrary answer. Undefined behaviour of
the C code is an outcome of its own (`Fault`, `Undefined`, `Broken`,
`NullHandle`, `BadWrite`, ...), never assumed away.

Where the code does less than one would wish, it is modelled as it is:

- A chunked body of which the first buffer ends exactly at the end of chunk
  data, or holds everything, is not framed; neither is a stored chunked body,
  nor a stored body that the first read already completed. `ChunkedFraming`
  and `ReceiveResponse` give these as the exact exceptions.
- Escapes with digits are decimal, though a comment in the source gives an
  octal example (flood_subst_file.c:127).
- A finished sequence leaves its name bound to its last item, so a template
  that mentions an outer sequence's name after an inner one reused it sees the
  wrong item (`Scope.ReusedNameLeaks`). `ScopeExact.HashIsScopeExactly` gives
  the exact condition.
- A read that fails on a timeout, and through SSL also at the end of the
  connection, leaves the length asked for in place (flood_net.c:108-110,
  flood_net_ssl.c:251-270), and the caller appends that many old bytes of its
  buffer to the response (`ResponseBuffer.LoadResponse`, `LoadToEnd`,
  `ReceiveToEnd`). The response is right if and only if the failing read
  reports 0.
- A failing open may leave a success status behind, as ssl_open_socket does
  when only the handshake fails (flood_net_ssl.c:212-226); the request is then
  written to a null handle (`Runs.NullHandleExactly`).
- A kept connection is reused whatever the scheme, host and port of the next
  URL. `Runs.SchemesKept` and `Runs.PeersKept` say exactly when requests still
  go where their URLs point; `Runs.WrongHostIsReached` is a run that does not.
- The farm's passes disagree on negative counts, and a total of zero reserves
  one slot, filled only when the negative counts sum to -1
  (`Farms.PassesAgree`).

## Model

| member | source | states |
|---|---|---|
| ChunkSize.ReadsSizeLine | flood_socket_keepalive.c:137-156 | Any line of one to fifteen hex digits followed by CRLF is read to the number it denotes, whatever follows. |
| ChunkSize.ChunkSizeRoundTrip | flood_socket_keepalive.c:137-156 | Writing n in hex and reading it back gives n exactly for n below 16^15, and 0 from there on. |
| Numbers.StrtolDigits | flood_socket_keepalive.c:152 | A string of digits is parsed whole, to its value, in base 10 and 16. |
| Numbers.PrintRoundTrip | flood_socket_keepalive.c:481 | Parsing undoes printing for every number in both bases; it is what carries a Content-Length over. |
| CText.CrlfEndsLine | flood_socket_keepalive.c:371-375 | The search for CRLF stops right behind any text that holds no line break and no NUL. |
| Chunked.Scan | flood_socket_keepalive.c:421-463 | The do-while over the first buffer terminates (the bytes behind the cursor decrease) and computes the recursive scan; `chunk` is null exactly when no chunk is open. |
| Chunked.ScanFindsPosition | flood_socket_keepalive.c:421-463 | For every well-formed body and every permitted first buffer the scan ends with the exact grammar position: data bytes still missing, -1 after a lone CR, a null chunk on a boundary. |
| Chunked.FillWindow | flood_socket_keepalive.c:196-217 | The innermost read loop equals the recursive refill for every segmentation, the skip of an owed LF included. |
| Chunked.SkipCrlf | flood_socket_keepalive.c:182-217 | The CRLF skip at the top of the loop plus the refill, against their specification: window, owed LF, socket and reads in vain. |
| Chunked.ReadLine | flood_socket_keepalive.c:219-259 | One size line: last-chunk, whole chunk skipped, or missing data; and what it takes from the socket. |
| Chunked.ReadLines | flood_socket_keepalive.c:180-260 | The loop over size lines, for every network, equals its specification on the stream. |
| Chunked.ReadChunk | flood_socket_keepalive.c:158-277 | The whole drain, from any state the scan leaves, equals its specification; it takes from the socket exactly what that says and waits in vain as often. |
| Chunked.RefillsAtLine | flood_socket_keepalive.c:196-217 | A refill issued zero, one or two bytes before a size line leaves the window exactly at the size line. |
| Chunked.NextLineAtLine | flood_socket_keepalive.c:180-217 | From every state between two chunks the loop top arrives at the next size line. |
| Chunked.LastLine | flood_socket_keepalive.c:223-246 | At the last-chunk the drain returns with nothing left on the socket. |
| Chunked.ChunkLine | flood_socket_keepalive.c:248-259 | At a chunk the window moves behind its data, or exactly the missing data is due. |
| Chunked.LinesFrame | flood_socket_keepalive.c:180-260 | The loop over size lines either ends the body or stops inside the data of one of its chunks, with the right number of bytes due. |
| Chunked.DrainFrames | flood_socket_keepalive.c:175-276 | From inside chunk data, before a CRLF, before an LF or before a size line, the drain consumes exactly the rest of the body. |
| Chunked.DrainFromPosition | flood_socket_keepalive.c:158-277 | For every offset the first buffer may end at, what the drain does by grammar position. |
| Chunked.ChunkedFraming | flood_socket_keepalive.c:158-277 | Scan plus drain consume exactly the bytes through the final CRLF and wait for nothing beyond it, if and only if the first buffer neither ends exactly at the end of chunk data nor holds the complete body. |
| Chunked.PromptNetworkRespects | flood_socket_keepalive.c:203 | A network that holds nothing back respects every body that fits one read. |
| Chunked.SomeNetworkRespects | flood_socket_keepalive.c:203 | The assumption on the network can be met for every body, however long: some segmentation respects it. |
| Headers.Walk | flood_socket_keepalive.c:366-388 | The header loop terminates and computes the recursive walk: table and stopping place. |
| Headers.WalkUndoesPrint | flood_socket_keepalive.c:366-388 | Walking any printed header list yields the case-insensitive last-wins table and stops exactly on the blank line. |
| Headers.WalkUndoesHead | flood_socket_keepalive.c:366-388 | The same for a whole response head behind a colon-free status line, whatever body follows. |
| Headers.LastWins | flood_socket_keepalive.c:384 | Of several headers with one name, in any case, the table keeps the last. |
| Headers.OthersKept | flood_socket_keepalive.c:384 | A name no header bears keeps its entry, or its absence. |
| ResponseBuffer.Response.Append | flood_socket_keepalive.c:310-323 | One doubling always suffices for a read no longer than the allocation; the bytes become old bytes followed by the new. |
| ResponseBuffer.ReadAndAppend | flood_socket_keepalive.c:309-330 | One turn of both loops: on success the bytes read are appended; on failure the reported length of whatever the scratch buffer holds is; one doubling suffices in both cases. |
| ResponseBuffer.LoadResponse | flood_socket_keepalive.c:279-337 | The response becomes its buffered bytes followed by exactly the announced remainder, or all the stream when it is 0; the read that meets the end appends as many bytes of the scratch buffer as it reports, so initial content plus reads is what results if and only if it reports 0; a known remainder never grows the buffer; bytes recopied by growth stay below twice the final size. |
| ResponseBuffer.LoadToEnd | flood_socket_generic.c:118-144 | Everything up to the end of the connection is kept in order, followed by the scratch bytes the failing read reports, none if and only if it reports 0; the same bound on recopied bytes. |
| ResponseBuffer.DrainToEnd | flood_socket_keepalive.c:533-537 | A response without known length is read to the end of the connection. |
| ResponseBuffer.ReceiveToEnd | flood_socket_generic.c:100-167 | generic_recv_resp: the whole response when wanted, plus what the failing read reports, or the bytes of its first read otherwise; the stream is used up either way; which status comes back. |
| Receive.Discard | flood_socket_keepalive.c:519-529 | Throwing a sized body away takes exactly its remaining bytes from the socket, however segmented, or all there is and one read in vain when there are fewer. |
| Receive.ReceiveBody | flood_socket_keepalive.c:501-538 | For every plan: exactly when the part after the headers is undefined (negative length, failed scan or drain); what each path, stored or thrown away, sized, chunked or up to the end of the connection, takes from the socket, waits for and keeps. |
| Receive.PlanOf | flood_socket_keepalive.c:390-498 | Header walk and decisions on any well-formed response: keep-alive, framing, announced length, and where the body starts. |
| Receive.PlanOfClosing | flood_socket_keepalive.c:390-498 | The same for a well-formed response that closes the connection or announces no length: neither keep-alive nor chunked. |
| Receive.FramesBody | flood_socket_keepalive.c:421-530 | What the first read left of the body is what the chosen path will take, for sized and chunked bodies. |
| Receive.KeptFacts | flood_socket_keepalive.c:366-498 | For every first read of a keep-alive response: plan, remaining length and start of the body, that nothing is undefined, and framability in terms of what is left. |
| Receive.EndFacts | flood_socket_keepalive.c:366-498 | For every first read of a response that is received by reading to the end: remaining length 0, nothing undefined. |
| Receive.ReceiveHead | flood_socket_keepalive.c:350-388 | The first read and the walk over it; a failing read leaves the length it reports of what memory held. |
| Receive.ReceiveResponse | flood_socket_keepalive.c:342-544 | A delivered keep-alive response is consumed exactly, with no read in vain, if and only if it is framable: a stored body must not be in the first buffer already, a chunked one must be thrown away and not end on the two positions above; a stored response is received byte for byte. A closing response, or one read as if it closed, is received to the end of the connection: its text and what the last read reports, the text alone if and only if that is 0. HEAD, and no response at all. |
| Receive.ReceiveRun | flood_profile.c:626-717 | Over any run of framable responses on one connection nothing is unread when a response is sent, every response is read with the plan its headers announce, and the stored ones arrive unchanged. |
| Unescape.ReadNumber | flood_subst_file.c:143-148 | The digits of an escape: up to three, in decimal, as the loop reads them. |
| Unescape.UnescapePiece | flood_subst_file.c:140-168 | One turn of the in-place loop writes the piece of the pure decoder and leaves the write pointer at or before the read pointer; unread text is untouched. |
| Unescape.Unescape | flood_subst_file.c:129-172 | The in-place decoder equals the pure decoder on the original text, is terminated by a NUL and touches nothing behind the old end. |
| Unescape.DecodeShrinks | flood_subst_file.c:139-169 | Output is never longer than input; it has the same length, and is the same text, exactly when every backslash begins a \0 that no digit follows. |
| Unescape.DecodeInverts | flood_subst_file.c:139-169 | Decoding inverts every escaping: each byte as itself, backslash-quoted, \n \r \t, or three decimal digits. |
| Unescape.DecimalEscape | flood_subst_file.c:143-150 | Every value from 1 to 255 survives the three-digit decimal form. |
| SubstFile.TextFile.Gets | flood_subst_file.c:113 | apr_file_gets: up to the newline, the end of file or one byte short of the buffer. |
| SubstFile.PickLine | flood_subst_file.c:95-124 | Seek, skip, read, rewind at the end, cut the last character: the line equals a pure function of the offset. |
| SubstFile.PicksWholeLine | flood_subst_file.c:106-123 | In a newline-terminated file whose lines fit the buffer every offset yields one whole line, the one cyclically after the line holding the offset. |
| SubstFile.LongLineIsCut | flood_subst_file.c:113-122 | For each line that does not fit there is an offset whose pick is not that whole line. |
| SubstFile.PicksWholeLinesIff | flood_subst_file.c:106-123 | So all picks are whole lines exactly when every line fits the buffer. |
| SubstFile.OffsetsCounted | flood_subst_file.c:106-123 | The number of offsets that pick a line is the length, newline included, of the line cyclically before it. |
| SubstFile.CountsSumToFileSize | flood_subst_file.c:106 | These counts sum to the file size. |
| SubstFile.IsFileOfLines | flood_subst_file.c:113-122 | Every newline-terminated text is a file of lines, so the results hold for all of them. |
| Template.GetSubst | flood_subst_file.c:43-53 | The first valid entry whose variable matches, or none. |
| Template.Params.LookUp | flood_round_robin.c:164-206 | The value of one variable: a drawn number that is also bound, the state hash, or a random line of a substitution file; and the new state. |
| Template.Params.ExpandTemplate | flood_round_robin.c:146-239 | The find-and-splice loop equals the recursive left-to-right expansion, state included. |
| Template.Params.Handle | flood_round_robin.c:128-246 | The same with the final unescape. |
| Template.ExpandsPieces | flood_round_robin.c:146-239 | Any template, cut at its matches, expands to its literal pieces interleaved with the values looked up from left to right, or fails where a look-up fails. |
| Template.EveryTemplate | flood_round_robin.c:149-152 | Every template can be cut so: literal pieces in which no match begins, unclosed and empty braces included. |
| Template.BoundValue | flood_round_robin.c:182-186 | A bound variable keeps its value until it is assigned again. |
| Template.AssignedValue | flood_round_robin.c:164-178 | Outside EPE_EXPAND mode ${=x} fixes one value for itself and every ${x} up to the next ${=x}. |
| Template.LookAllConcat | flood_round_robin.c:146-241 | State carries over from one template to the next: looking up two name lists in turn is looking up their concatenation. |
| SequenceList.CountItems | flood_round_robin.c:632-638 | The comma-counting loop finds the number of items. |
| SequenceList.SplitList | flood_round_robin.c:632-658 | The cutting loop yields exactly the counted items, leading white space dropped. |
| Sequences.CountUrls | flood_config.c:106-117 | Counts the url children. |
| Sequences.CountSequences | flood_round_robin.c:708-744 | The counting recursion, with its early return of 0 for a sequence without items. |
| Sequences.CountsAgree | flood_round_robin.c:708-744 | When every sequence has one name and one list, the count is the size of the level: items times the children, at any depth. |
| Sequences.ChildrenFill | flood_round_robin.c:663-704 | Filling a level produces as many slots as the level counts. |
| Sequences.ItemsFill | flood_round_robin.c:663-704 | The loop over items produces items times the level count. |
| Sequences.TopFills | flood_round_robin.c:847-873 | Counting and filling agree for a whole URL list, at any depth. |
| Sequences.Profile.ParseUrl | flood_round_robin.c:674-701 | A url is written to the slot at the cursor, its three templates expanded in order; every other slot is kept. |
| Sequences.Profile.ParseSequence | flood_round_robin.c:612-706 | The recursive fill writes exactly the slots of its specification from the cursor on, inside the allocation, and advances the cursor by their number. |
| Sequences.Profile.ParseChildren | flood_round_robin.c:668-703 | The loop over children, mutually recursive with the above, under the same contract. |
| Sequences.Profile.Init | flood_round_robin.c:847-876 | Count, allocate, fill: every write is below `urls`, the cursor ends there, and the list equals the specification. |
| Scope.LevelRefines | flood_round_robin.c:663-704 | The mutable hash refines lexical scope wherever the static walk finds no rebound name mentioned: a level is filled as substitution of the enclosing bindings demands, and every name not rebound keeps its binding. |
| Scope.ElemRefines | flood_round_robin.c:663-704 | The same for one child. |
| Scope.ItemsRefine | flood_round_robin.c:663-704 | The same for the loop over the items of a sequence. |
| Scope.TopRefines | flood_round_robin.c:861-873 | The same for the whole URL list, from an empty scope. |
| Scope.DistinctIsSafe | flood_round_robin.c:663-704 | When no sequence reuses the name of one around it, the walk is safe; so distinct names suffice, though they are not needed. |
| ScopeExact.DiffersOnMentions | flood_round_robin.c:146-239 | With values of one length, two bindings expand a template alike exactly when it mentions none of the names they differ on. |
| ScopeExact.LevelExact | flood_round_robin.c:663-704 | With items told apart by depth, a level filled through the hash has as many slots as lexical scope demands, and these very slots if and only if the walk is safe. |
| ScopeExact.SequenceExact | flood_round_robin.c:663-704 | The same for the loop over items, where the second turn sees what the first rebound. |
| ScopeExact.HashIsScopeExactly | flood_round_robin.c:663-704 | For every URL list: the hash gives the slots of lexical scope for every choice of item lists, if and only if no template mentions a name at a point where the walk has it rebound. |
| Scope.LevelSize | flood_round_robin.c:708-744 | A level has as many slots as the counting pass says, whatever items surround it. |
| Scope.SlotAddress | flood_round_robin.c:663-704 | Slots stand in nested-loop order: slot k*m + r of a sequence is slot r of its children under item k. |
| Scope.LeavesLastItem | flood_round_robin.c:663-667 | A finished sequence of one item leaves its name bound to it. |
| Scope.ReusedNameLeaks | flood_round_robin.c:663-667 | A url behind an inner sequence that reuses the outer name, and mentions it, sees the inner item: one of the cases the walk rules out. |
| Cookies.Jar.Postprocess | flood_round_robin.c:1080-1111 | The found cookie goes to the front of the list and nothing else changes; the step fails exactly on a header line without CR. |
| Cookies.Jar.Emit | flood_round_robin.c:271-288 | The loop over the list writes the whole Cookie line. |
| Cookies.HeaderIsFirst | flood_round_robin.c:1080 | The search finds the header a response prints, not an overlap with the text before it. |
| Cookies.ExtractsCookie | flood_round_robin.c:1080-1108 | Extraction inverts printing: name up to `=`, value up to `;` or CR, for every well-formed response. |
| Cookies.CookieRun | flood_round_robin.c:1080-1111 | After any run of responses the jar holds exactly the cookies they set, newest first, in front of what it held. |
| Cookies.JoinedReadsBack | flood_round_robin.c:271-285 | Reading the emitted list back, from any place in a request, gives the same cookies in the same order. |
| Cookies.CookieLineOfRun | flood_round_robin.c:271-288 | From an empty jar, the Cookie line after any run lists exactly the cookies set, newest first, and is empty when there are none. |
| Connections.Connection.Open | flood_socket_keepalive.c:97-118 | Opening: the scheme test, the ENOTIMPL branch, the failing open; a handle is live afterwards exactly when the open worked. |
| Connections.Connection.BeginConn | flood_socket_keepalive.c:84-121 | A live connection is reused after a good check, reopened after a bad one; the handle in use is open, along the route (SSL or clear, host and port) it was opened on, and opens and failed checks change by exactly that. |
| Connections.Connection.SendReq | flood_socket_keepalive.c:126-133 | A request goes to an open handle, or to NULL exactly when no connection is live. |
| Connections.Connection.EndConn | flood_socket_keepalive.c:549-559 | Generic handlers always close, keep-alive ones exactly when the response says so; opens = closes + failed checks + live is kept. |
| Connections.WellUsedAppend | flood_socket_keepalive.c:84-135 | A log stays well used exactly when the next handle used is open and along its route, and the next handle opened is new. |
| Reports.VerifiersAgree | flood_round_robin.c:1267-1305 | On any status line both verifiers give a verdict, and they differ exactly on a 2xx of a protocol other than HTTP/1.0 and HTTP/1.1. |
| Reports.Report.ProcessStats | flood_simple_reports.c:43-60 | Hits, successes and failures after one verdict. |
| Runs.ScheduleIsRounds | flood_round_robin.c:1307-1333 | The schedule of k mod urls is the list walked in order, round after round. |
| Runs.Profile.LoopCondition | flood_round_robin.c:1307-1357 | The index stays below urls, one more transaction is done, and the loop goes on exactly while the schedule is not used up. |
| Runs.Transact | flood_profile.c:626-715 | One turn of the event loop: how it ends for every combination of answers, and on success one open or reuse, one send, one receive, one verdict counted. |
| Runs.RunLoop | flood_profile.c:626-717 | The do-while loop terminates (transactions left decrease); a successful one requested exactly the schedule, a failed one a beginning of it; the connection invariants hold throughout. |
| Runs.RunProfile | flood_profile.c:582-735 | A whole run: how it ends; on success exactly rounds*urls transactions, the k-th on URL k mod urls, exactly one when rounds <= 0; hits = successes + failures = schedule length; every send and receive on an open handle, along the route its opening request decided; opens and closes balanced. |
| Runs.RunSucceeds | flood_profile.c:626-735 | A run succeeds exactly when every scheduled transaction and the closing events do. |
| Runs.NullHandleExactly | flood_profile.c:626-717 | A request is written to a null handle exactly when the first failing transaction was refused a connection under a success status. |
| Runs.NullHandleIsReached | flood_socket_keepalive.c:112-116 | A concrete run that does so: begin_conn returns whatever status the failing open left behind. |
| Runs.SchemesKept | flood_socket_keepalive.c:88-119 | Requests go out through SSL or in clear as their own schemes say exactly when no connection is reused across a change of scheme. |
| Runs.PeersKept | flood_socket_keepalive.c:88-119 | Requests go to the host and port of their own urls (or the proxy) exactly when no connection is reused across a change of those. |
| Runs.WrongHostIsReached | flood_socket_keepalive.c:88-119 | A concrete successful run whose second request goes to the host of the first. |
| Runs.GenericOpensEach | flood_socket_generic.c:55-84 | With generic handlers opens equal closes equal transactions at every loop head. |
| Runs.KeepaliveOpens | flood_socket_keepalive.c:84-121 | With keep-alive handlers the opens are one, plus one for each connection closed and each found dead before the last transaction. |
| Events.Handlers.Assign | flood_profile.c:291-359 | An event is assigned exactly when the first table entry of that name is registered for it; no slot ever holds another event's function. |
| Events.Handlers.AssignMember | flood_profile.c:389-396 | A group member takes the slot its first table entry is registered for, and no other slot changes. |
| Events.Handlers.AssignGroup | flood_profile.c:368-398 | The first group of that class and name assigns all its members; an unknown one changes nothing. |
| Events.MembersWin | flood_profile.c:389-396 | After a group, an event holds its last member registered for it, or what it held before. |
| Events.InitializeEvents | flood_profile.c:501-577 | Success exactly when all names are known for their events; then every slot is filled, by the event's own override, else its group's member (the later class first), else the generic handler. |
| Farmers.FillNames | flood_farmer.c:113-121 | The second walk writes exactly the counted profile names in document order. |
| Farmers.RunRound | flood_farmer.c:131-142 | One round: all profiles in order, or a beginning of them up to the first failing run. |
| Farmers.RunFarmer | flood_farmer.c:99-151 | Count mode: success exactly when every run of every round succeeds, and then the requests are count times the concatenated schedules; otherwise a beginning of that; an empty profile list is an error. |
| Farmers.FarmerWorkSize | flood_farmer.c:126-151 | That is count times the sum of the profiles' schedule lengths. |
| Farms.CountFarmers | flood_farm.c:151-174 | The first pass adds up counts, one for an element without count, one for a total of zero. |
| Farms.WritesBalance | flood_farm.c:151-225 | The second pass writes what the first counts plus one slot for each unit of negative count. |
| Farms.PassesAgree | flood_farm.c:151-225 | The passes agree exactly when, for a total other than zero, no count is negative; for a total of zero, when the negative counts sum to -1. |
| Farms.WriteCopies | flood_farm.c:185-188 | The copying loop writes a name as often as its count says, or finds that it does not fit. |
| Farms.FillElement | flood_farm.c:182-224 | One usefarmer element: names written and pause settings read, attribute by attribute; overrun and invalid attribute told apart. |
| Farms.FillFarmers | flood_farm.c:176-225 | The second pass writes the names in document order from slot 0 on and nothing else; the last valid pause settings win. |
| FarmRuns.StartFarmers | flood_farm.c:246-269 | The start loop: success exactly when all names are set, all threads start and no division by zero is met; then the paced events. |
| FarmRuns.JoinFarmers | flood_farm.c:271-287 | The join loop: success exactly when every join is fine, each farmer once and in order. |
| FarmRuns.RunFarm | flood_farm.c:151-292 | The whole farm: success exactly when the names fit, the pause is valid and all threads start and join; the events are then the paced starts followed by one join each; overrun, invalid attribute and unset name told apart. |
| FarmRuns.Pacing | flood_farm.c:246-269 | Farmer i starts after exactly floor(i / |startcount|) pauses when the delay is not zero, and under its own name. |
| FarmRuns.JoinedOnce | flood_farm.c:271-287 | Every started farmer is joined exactly once, after all the starts. |
| FarmRuns.SizesAddUp | flood_farm.c:246-287 | The requests of any interleaving add up to the requests of its threads. |
| FarmRuns.WorkConserved | flood_farm.c:246-287 | When every thread does all the work of its farmer, the requests of any interleaving number the sum over farmers of count times the profiles' schedule lengths. |
| FarmRuns.FarmStarts | flood_farm.c:246-269 | The farmers a finished farm started are exactly the names it read, in order. |
| FarmRuns.ThreadsConserve | flood_farm.c:246-287 | Whatever the farmers return, any interleaving of their requests stays within the plan; it meets the plan when all succeed. |
| FarmRuns.RunThreads | flood_farm.c:246-287 | The farm and one run_farmer for each thread it starts: when the farm finishes, the started names are those it read, any interleaving of the requests stays within the sum of count times the profiles' schedule lengths, and equals it when every farmer returns success. |

## Left out

- Sockets, polling, SSL, threads, processes and file handles themselves: they are the parameters described above.
- XML parsing and configuration look-ups: the model starts from parsed elements; names are compared without the limit of FLOOD_STRLEN_MAX.
- URI parsing, base64, authorization and extra headers, payloads of requests, proxy paths: plumbing around the modelled parts.
- The regex engine: only the pattern `${name}` is modelled, with a name free of `}` and backslash.
- Easy and relative-times reports, report formatting, pre- and post-delays with their floating-point precision, response templates and response scripts.
- The timed mode of a farmer (flood_farmer.c:153-180): it depends on the clock.
- Pipelining, chunk extensions and trailers, and heads longer than the first read: the code excludes them by comment.
- 32-bit `int` truncation of chunk sizes from 2^31 on and overflow of buffer sizes and counters: numbers are unbounded, and `Chunked.IsChunk` keeps data below 2^31.
- Searches in the receive buffers are bounded by the bytes received; the C buffers are not NUL-terminated. The layout of the drain's scratch buffer is modelled as the window of bytes it holds.
- The concrete handler tables: `Events` is proved for every table; unregistered event names cannot occur in it, so the internal-error branch of the cascade does not either.
- Memory pools and all frees; generic_fullresp_recv_resp, which only sets a flag around generic_recv_resp.
- ResponseBuffer.ReceiveToEnd: requires a connection that ends or times out, because on APR_EGENERAL the loops of the source do not end.
- SubstFile.PickLine: requires a file without NUL bytes, on which the cut of the last character would fall elsewhere.
- Sequences.Profile.Init: requires one name and one list for each sequence; with other numbers the source reads uninitialised variables.
- Chunked.ChunkedFraming: assumes reads that do not split a size line, the last-chunk or a CRLF in the ways the code does not handle; which splits those are is `Chunked.MayEnd` and `Chunked.CutsRespect`.
- ScopeExact.HashIsScopeExactly: speaks of sequences with one name and one list, templates without backslashes that mention only enclosing names, and items without backslashes; expansion unescapes its whole result.
- Template.Params.LookUp: a variable bound nowhere is a fault; the branch that would put its text back is never reached.
- Cookies.ExtractsCookie: at most one cookie for each response, names without `=` and values without `;` and CR; a NUL cuts a name or value short.
- Reports.Verified: bytes beyond a short response do not match; apr_strtok's write of a NUL into the response is not modelled.
- FarmRuns.RunThreads: each farmer's own run is modelled by itself and the threads by arbitrary interleavings of their requests; a failing farmer's status is dropped by its thread (flood_farm.c:78-84).
- ssl_read_socket's recursion on SSL_ERROR_WANT_READ, which drops the status of the inner read (flood_net_ssl.c:263-265).
- A failed assert of the scan and a length below zero handed on as unsigned are one outcome, `Undefined`.
- random(), rand() and lrand48() draw from one oracle.

# Verification of the SDK's step protocols

This Dafny project models seven components of the SDK, each of which holds an algorithm or a
protocol whose correctness does not show in any one function, and proves what they promise:

| component | files | what is proved |
|---|---|---|
| push button | `Button.dfy`, `ButtonRuns.dfy`, `ButtonChanges.dfy` | debouncing, hold times and event order over every run of edges and timers; a settling bound; the 32-bit limits of the periods; what is registered is reported when asked for |
| Wi-Fi scan | `ScanRanking.dfy`, `ScanMachine.dfy`, `ScanRuns.dfy`, `ScanHistory.dfy`, `ScanDriver.dfy` | the in-place merge is the ranking; ownership, contents, counts and channel order over every sequence of scans, told from its calls and events |
| JSON | `JsonTokens.dfy`, `JsonText.dfy`, `JsonParse.dfy`, `JsonReject.dfy`, `JsonForest.dfy`, `JsonStart.dfy`, `JsonNav.dfy` | on any text accepted the tokens are a forest that the walks stay inside, with the one exception shown; on every JSON text the tokenizer lays out exactly the tokens of its tree; a text cut off is told from a malformed one; the walks over the flat token array are lookups in that tree; enter and leave round trips |
| HTTP client | `HttpHeaders.dfy`, `HttpHeaderBuffers.dfy`, `HttpBody.dfy`, `HttpChunk.dfy`, `HttpChunkedBody.dfy` | headers do not depend on fragmentation; the body is delivered once and in order from a buffer compacted under the parser; when a call returns, exactly; chunked coding round trips, from the encoder to the receiving application |
| HTTP/2 send callback | `SendLoop.dfy` | exact accounting for partial writes |
| audio stream task | `StreamTask.dfy`, `StreamRuns.dfy`, `StreamCalls.dfy`, `StreamCallbacks.dfy` | when a destroy request is kept and what a caller can go by, how soon each call is followed and which callbacks it leads to, no use after free by the task and exactly when by a call, order of events, over every interleaving |
| audio pipeline | `Pipe.dfy`, `PipeRuns.dfy`, `PipeParts.dfy`, `PipeEvents.dfy`, `PipeDriver.dfy` | wiring and conservation of ring buffers, streams and codecs over every sequence of calls and events; what each event makes possible; which changes of state are reported, over every interleaving of the tasks that report them, down to single reads |

`Common.dfy` holds shared types and the byte connection under the two HTTP components.

Each component has a specification on values (a state and its transitions), a class or methods
on arrays in the form the source has, proved equal to the transitions step by step, and theorems
about the transitions: over all inputs, all runs or all interleavings. Where the source does not
do what its callers may expect, the project keeps the code's behaviour and proves exactly when
it does: the members whose names end in `Iff` or `Exact`, with a run or an input that shows the
failure where one is needed (`ButtonRuns.ShortPeriodSkipsPush`,
`StreamRuns.LostDestroy`, `PipeEvents.StartIsLost`, `HttpChunkedBody.EndsEarly`). Among them: a
pause that comes early makes a stream start without its context, and a resume initialises a
context again that no pause has cleaned up (`StreamCallbacks.StartInitialisesIff`,
`StreamCallbacks.CallInitialises`); a closing bracket with nothing to close is accepted after any
token (`JsonReject.BracketAfterEndIff`).

Where the code and its documentation disagree the code is followed:

- `audio_pipe_set_input_stream` is documented to plug a new stream in. On its way from an input
  callback to a stream it does so and still returns ESP_FAIL (`PipeRuns.PlugStreamKeepsFit`).
- `audio_pipe_resume` suggests a state RESUMED; no event leads to it (`PipeEvents.EveryRun`).
- A redirect location reaches the header callback with the value of the header before it
  (`HttpHeaders.ExpectedOf`).
- The comment in `http_get_body` that a full buffer cannot happen is right
  (`HttpClient.Conn.HandOver`).
- The comment in `http_response_read_and_parse` allows timeouts only after the headers. They do
  no harm while `http_response_recv` reads the headers; a header fetch that times out makes a
  later `http_response_recv` return 0 too early (`HttpClient.Conn.Recv`, `HttpChunkedBody.EndsEarly`).
- A peer that closes before the first byte of its answer, the usual end of a connection kept
  alive, is no error to the HTTP parser. The loops of `http_response_recv`, `http_header_fetch` and
  `http_request_new` then never end (`HttpClient.HungIff`, `HttpClient.ReceiveNothing`). In the
  model such a call returns HUNG, in a state in which every further read finds the same
  (`HttpClient.Conn.ReadOn`).
- The comment at the end of `audio_pipe_event_cb` says that only changes are reported. Tasks that race
  can make it miss one or hear of one twice (`PipeEvents.RecordIff`, `PipeEvents.LostBetweenReads`).
- `json_parse_start` accepts JSON texts, but not a number or literal that nothing follows
  (`JsonParse.ParsesIff`, `JsonParse.LoneNumberIsRejected`).

Assumptions on what lies outside: the Wi-Fi driver hands over records in descending RSSI and
sends one SCAN_DONE per scan started; armed esp_timers fire in deadline order, those with the
same deadline in the order of arming, possibly late, and handlers run one at a time; the HTTP
parser is any automaton over bytes that reports body data only between the end of the headers and
the end of the message, takes a close before the first byte of a message (blank lines aside) for
nothing, a close in the headers for an error, and a close in the body for its end or an error, as
http_parser does; the server sends nothing after its answer; `memcpy` within one buffer moves
bytes from the lower end; the streams handed to a pipeline are readers at its input and writers at
its output and are not in use elsewhere.

## Model

| member | source | states |
|---|---|---|
| `ButtonRuns.EveryRun` | components/button/button/button.c:78-237 | In every run of edges, waits, timer firings in deadline order and registrations, from a fresh button, where the continuous time of a level is that since an edge to it with no edge in between: PUSH is only reported after the glitch time of continuous active level, TAP and RELEASE after the glitch time of continuous inactive level, a long press after its whole period of continuous active level; TAP only if no long press came since the last push, RELEASE only out of a press, serial callbacks only inside a press; an armed serial timer implies the state is not IDLE. |
| `ButtonRuns.StepKeepsInv` | components/button/button/button.c:78-237 | Each handler, edge, wait and registration keeps the invariant behind `EveryRun`: while the pin is active every armed timer's deadline is the last edge plus its own period, while it is inactive the release deadline is at least the last edge plus the glitch time, and the state is the one the log of reports gives. |
| `ButtonRuns.PushPrecedesLongPress` | components/button/button/button.c:193-221 | Every long press is reported after the push handler has seen the same active edge, if the programmed periods are the glitch time or more. |
| `ButtonRuns.PushFirstIff` | components/button/button/button.c:193-221 | For every button and number of seconds: a push precedes the long press in all runs if and only if the 32-bit period programmed for it is at least the glitch time. |
| `ButtonRuns.ShortPeriodSkipsPush` | components/button/button/button.c:407-417 | A concrete run in which a long press whose period is below the glitch time is reported with no push before it. |
| `ButtonRuns.PressPeriodExact` | components/button/button/button.c:407-417 | For every number of seconds and tick length, the period programmed for a long press is the requested time if and only if that is at most 4294 s (uint32_t arithmetic) and a whole number of ticks. |
| `ButtonRuns.OverflowingPress` | components/button/button/button.c:407-417 | 4295 s becomes 32.7 ms, and a run exists in which that long press comes before any push. |
| `ButtonRuns.SerialThresholdExact` | components/button/button/button.c:113-121 | A push arms the serial timer for the requested number of seconds if and only if that is at most 4294. |
| `ButtonRuns.SerialIntervalExact` | components/button/button/button.c:183-190 | The interval between serial callbacks is the requested number of ticks if and only if that is at most 4294967 ms (uint32_t arithmetic). |
| `ButtonRuns.Settles` | components/button/button/button.c:97-171 | With timers on time: more than two glitch times after the last edge to inactive, the state is IDLE and all long-press and serial timers are disarmed; more than one glitch time after the last edge to active, the push handler has run and the state is not IDLE. |
| `ButtonRuns.StepKeepsSettling` | components/button/button/button.c:97-171 | Each step taken on time keeps the two deadlines behind `Settles`. |
| `ButtonRuns.PushIsReported` | components/button/button/button.c:97-125 | Holding the button for the glitch time, with every long-press period at least as long, reports exactly one push, restarts all long-press timers from the edge and starts the serial timer. |
| `ButtonRuns.LongPressIsReported` | components/button/button/button.c:78-94 | Holding it until the deadline of a long press that is the next to fire reports that long press, at that time, and moves the state to PRESSED. |
| `ButtonRuns.TapIsReported` | components/button/button/button.c:139-170 | Letting go after a push, with no other timer due within the glitch time, reports TAP and then RELEASE, returns to IDLE and stops all long-press and serial timers. |
| `ButtonRuns.SerialBeats` | components/button/button/button.c:173-191 | While the button is held, the serial callback comes when first due and then once per interval, any number of times. |
| `ButtonRuns.RegisteredBeats` | components/button/button/button.c:348-374 | From registering on: for up to 4294 s and ticks of up to 4294967 ms in all, a run from a new button in which the serial callback comes that many seconds after the push and then at exactly the interval asked for, any number of times. |
| `ButtonChanges.RegisteredLongPress` | components/button/button/button.c:407-430 | From registering on: a run from a new button in which a long press of up to 4294 s, a whole number of ticks, is reported exactly that many seconds after the button goes down. |
| `ButtonChanges.PressSurvives` | components/button/button/button.c:139-237 | Over any run without an edge to active, a firing of a long press or a confirmed release, every long press keeps its deadline, however often the contact bounces to inactive and whatever is registered meanwhile. |
| `ButtonChanges.PressChanges` | components/button/button/button.c:78-237 | Which steps set, stop or leave the deadline of a long press, for every step of a run. |
| `ButtonChanges.DebounceChanges` | components/button/button/button.c:97-237 | Which steps set or stop the deadlines of push and release, and which change the state. |
| `ButtonChanges.SerialChanges` | components/button/button/button.c:97-191 | Which steps set or stop the serial timer; registering again leaves it running. |
| `ButtonChanges.RegisteringChanges` | components/button/button/button.c:348-430 | Registering changes the one callback it names and no timer that runs; a new long press comes to the head of the list. |
| `ButtonChanges.ReportsMade` | components/button/button/button.c:78-191 | What each step reports: a callback only if it is registered. |
| `ButtonDriver.ButtonDev.constructor` | components/button/button/button.c:272-326 | A new button is IDLE with no timer armed; the glitch time is the configured one in whole ticks. |
| `ButtonDriver.ButtonDev.RearmAll` | components/button/button/button.c:209-221 | The walk over the timer list restarts every long-press timer with its own period, in place. |
| `ButtonDriver.ButtonDev.DisarmAll` | components/button/button/button.c:153-159 | The walk over the same list stops every long-press timer and changes nothing else of it. |
| `ButtonDriver.ButtonDev.GpioIsrHandler` | components/button/button/button.c:193-237 | The edge interrupt takes the object to the state the run proofs are about: all press timers restarted on active, the release timer on inactive. |
| `ButtonDriver.ButtonDev.TapPushCb` | components/button/button/button.c:97-137 | The push timer's handler refines the transition the run proofs use, on both pin levels. |
| `ButtonDriver.ButtonDev.TapReleaseCb` | components/button/button/button.c:139-171 | The release timer's handler refines its transition, with the reports in the source's order. |
| `ButtonDriver.ButtonDev.PressSerialCb` | components/button/button/button.c:173-191 | The serial timer's handler refines its transition: report, then restart with the interval. |
| `ButtonDriver.ButtonDev.PressCb` | components/button/button/button.c:78-94 | A long-press timer's handler refines its transition; it does nothing if the pin is inactive. |
| `ButtonDriver.ButtonDev.AddCustomCb` | components/button/button/button.c:407-431 | Zero seconds are rejected; otherwise a timer with the wrapped period goes to the head of the list. |
| `ButtonDriver.ButtonDev.SetSerialCb` | components/button/button/button.c:348-374 | The serial timer keeps its deadline and gets the new threshold and interval. |
| `ScanRanking.MergeIsRanking` | components/conn_mgr_prov/src/conn_mgr_prov.c:324-343 | Merging two descending lists gives an interleaving of both that keeps each one's order, is descending, and puts a new record before an old one of the same strength. |
| `ScanRanking.RankingIsMerge` | components/conn_mgr_prov/src/conn_mgr_prov.c:324-343 | Those properties determine the result: any list that has them is the merge. |
| `ScanRuns.InsertIsRanking` | components/conn_mgr_prov/src/conn_mgr_prov.c:324-343 | For any capacity n, a compact descending list of length m and c new records: the result has min(n, m + c) entries, is the ranking of the first min(m, n - min(c, n)) old and the first min(c, n) new ones, and repeats none. |
| `ScanRuns.InsertKeepsStrongestIff` | components/conn_mgr_prov/src/conn_mgr_prov.c:326-343 | One merge keeps the strongest of all the old and new records if and only if no old one had to go or the strongest old one displaced is not above the weakest new one placed. |
| `ScanDriver.MergeBack` | components/conn_mgr_prov/src/conn_mgr_prov.c:326-338 | The back-to-front loop over the array places every merged entry but the leading new ones, and never overwrites a slot not read yet. |
| `ScanDriver.PlaceNew` | components/conn_mgr_prov/src/conn_mgr_prov.c:339-342 | The second loop puts the remaining new records into the front slots, in order, and leaves the others alone. |
| `ScanDriver.MergeRecords` | components/conn_mgr_prov/src/conn_mgr_prov.c:324-343 | The two loops together leave exactly the ranked list in the array, from the front, with empty slots after it. |
| `ScanSpec.NotYetDone` | components/conn_mgr_prov/src/conn_mgr_prov.c:276-285 | When a channel's old records are freed, no ranked entry points into them. |
| `ScanSpec.LogLoopEnds` | components/conn_mgr_prov/src/conn_mgr_prov.c:317-321 | The log loop with its 8-bit index goes on for ever if and only if there are more than 255 records, and otherwise ends after one round for each record. |
| `ScanDriver.Prov.LogRecords` | components/conn_mgr_prov/src/conn_mgr_prov.c:317-321 | The loop itself, run for any number of rounds, tells whether its guard has failed by then. |
| `ScanRuns.StepKeepsInv` | components/conn_mgr_prov/src/conn_mgr_prov.c:270-379 | Starting a scan and finishing a channel, with any outcome, keep the invariant: every channel owns its own block, nothing leaks, the list is compact, descending, free of repeats, and points into live records of channels processed in this scan. |
| `ScanRuns.EveryRun` | components/conn_mgr_prov/src/conn_mgr_prov.c:270-379 | Over any sequence of scans: the list has min(n, records merged in this scan) entries, descending, each a live record of a channel already processed in the current scan; no block is leaked; the channels come in strictly ascending order below 14. |
| `ScanHistory.EveryScan` | components/conn_mgr_prov/src/conn_mgr_prov.c:270-379 | The same told from the calls and events alone: over any sequence of scans, with the last start that found none running and the outcomes since, a scan is running exactly while the outcomes let it; the channels processed are those of the events; each holds exactly what the driver has found on it; the list has min(n, records found) distinct entries, descending, each a record the driver has found in this scan on the channel that owns it. |
| `ScanRuns.StrongestFirstIff` | components/conn_mgr_prov/src/conn_mgr_prov.c:324-343 | The first entry is the strongest record of the whole scan if and only if every record merged before the last list that alone fills all slots is matched or outdone by one merged from that list on; without such a list it always is. |
| `ScanHistory.StrongestOfScanIff` | components/conn_mgr_prov/src/conn_mgr_prov.c:324-343 | The same on the records that the driver has found, told from the events. |
| `ScanHistory.RanksFound` | components/conn_mgr_prov/src/conn_mgr_prov.c:270-343 | One event with records ranks them among the strongest earlier entries there is room for; one without leaves the list as it was. |
| `ScanRuns.GroupedScanEnds` | components/conn_mgr_prov/src/conn_mgr_prov.c:354-372 | A grouped scan takes at most 14 minus the current channel SCAN_DONE events, and has ended after that many. |
| `ScanHistory.WholeScan` | components/conn_mgr_prov/src/conn_mgr_prov.c:345-374 | A grouped scan whose outcomes all succeed and whose restarts are all accepted processes exactly the channels 1 to 13, one event each, and ends with the 13th and not before. |
| `ScanRuns.StoreLeaksNothing` | components/conn_mgr_prov/src/conn_mgr_prov.c:280-310 | Replacing a channel's records leaves every allocated block owned by a channel. |
| `ScanDriver.Prov.ScanStart` | components/conn_mgr_prov/src/conn_mgr_prov.c:473-513 | The slots are cleared and the first channel is set only if no scan is running; the result says whether one is. |
| `ScanDriver.Prov.UpdateScanResults` | components/conn_mgr_prov/src/conn_mgr_prov.c:270-379 | The SCAN_DONE handler refines the transition of `ScanRuns` for every outcome of the driver calls, and the array holds the new list; it hangs if and only if its log loop never ends, with the records stored but not ranked and the scan not going on. |
| `ScanDriver.Prov.NextChannel` | components/conn_mgr_prov/src/conn_mgr_prov.c:345-374 | After the records the scan goes on with the next channel, or ends, for every outcome. |
| `ScanDriver.Prov.StoreResults` | components/conn_mgr_prov/src/conn_mgr_prov.c:280-343 | The part that frees, allocates, logs and ranks the records of the current channel, on the array; it ends if and only if the log loop does. |
| `ScanDriver.Prov.FreeRecords` | components/conn_mgr_prov/src/conn_mgr_prov.c:280-284 | Only the current channel's block is freed. |
| `ScanDriver.Prov.AllocateRecords` | components/conn_mgr_prov/src/conn_mgr_prov.c:301-310 | The current channel gets a block of its own. |
| `ScanDriver.Prov.ResultCount` | components/conn_mgr_prov/src/conn_mgr_prov.c:553-574 | The count of leading filled slots is min(n, records merged in this scan). |
| `ScanDriver.Prov.Result` | components/conn_mgr_prov/src/conn_mgr_prov.c:576-593 | The entry at an index below n is the ranked one, or none, and it is live; there is such an entry if and only if the index is below n, which the source does not check. |
| `JsonText.SpelledIsJson` | components/json_parser/jsmn/src/jsmn-changed.c:185-333 | The tree of any JSON text (RFC 8259) is one that the navigation works on: members are a key with one value, values nest, all text slices lie in the input. |
| `JsonParse.StringEnds` | components/json_parser/jsmn/src/jsmn-changed.c:117-180 | On every string, with any escapes, the scan ends at its closing quote. |
| `JsonParse.PrimitiveEnds` | components/json_parser/jsmn/src/jsmn-changed.c:67-112 | On every primitive the scan ends at the separator after it, and is an error if nothing follows. |
| `JsonParse.FindsOpen` | components/json_parser/jsmn/src/jsmn-changed.c:227-241 | From the last token, the search up the parent links ends at the container being filled, whatever has been read into it. |
| `JsonParse.ValueRounds` | components/json_parser/jsmn/src/jsmn-changed.c:193-333 | Reading the text of any value appends the preorder encoding of its tree, counts it in its superior token once, and leaves toksuper as it was, whatever white space is inside. |
| `JsonParse.ParsesIff` | components/json_parser/jsmn/src/jsmn-changed.c:185-343 | With room for the tokens of the tree, every JSON text is accepted if and only if its root is not a primitive at the very end of the text (the strict build rejects those), and the tokens are exactly the encoding of the tree. |
| `JsonParse.CountsAgree` | components/json_parser/jsmn/src/jsmn-changed.c:185-343 | Whenever the pass that stores tokens succeeds, on any input, the pass without a token array counts as many. |
| `JsonParse.CountsIff` | components/json_parser/jsmn/src/jsmn-changed.c:185-343 | On every JSON text the counting pass returns the number of tokens of the tree, or the error for a root primitive at the end. |
| `JsonParse.LoneNumberIsRejected` | components/json_parser/jsmn/src/jsmn-changed.c:67-112 | The text 1 is JSON, and both passes reject it with the error for a text cut off. |
| `JsonReject.StringEndIff` | components/json_parser/jsmn/src/jsmn-changed.c:117-179 | For any text, the scan of a string ends at a quote if and only if that ends a string that is well formed by section 7 of RFC 8259. |
| `JsonReject.StringBadIff` | components/json_parser/jsmn/src/jsmn-changed.c:117-181 | It fails with the error for a malformed text if and only if it comes to a bad escape after well-formed characters, and otherwise with the one for a text cut off. |
| `JsonReject.PrimitiveEndIff` | components/json_parser/jsmn/src/jsmn-changed.c:67-112 | The scan of a number or literal ends at a separator if and only if only its characters come before. |
| `JsonReject.PrimitiveBadIff` | components/json_parser/jsmn/src/jsmn-changed.c:67-94 | It fails with the error for a malformed text if and only if it comes to a character outside printable ASCII, and otherwise with the one for a text cut off. |
| `JsonReject.BrokenFails` | components/json_parser/jsmn/src/jsmn-changed.c:185-330 | From any parser state: a container is rejected as malformed if after any well-formed elements or members there comes the closing bracket of the other kind, a number or literal where a key is due or after the value of a member, or a character no token begins with; or if the next element, or the value of the next member, is such a container, to any depth. |
| `JsonReject.BrokenTextFails` | components/json_parser/jsmn/src/jsmn-changed.c:185-330 | So is every text that begins with such a container. |
| `JsonReject.CutAsksForMore` | components/json_parser/jsmn/src/jsmn-changed.c:185-345 | Of a text that is accepted, JSON or not, whatever comes before any point is accepted too or rejected with the error for a text cut off, never with another. |
| `JsonReject.CutIsPart` | components/json_parser/jsmn/src/jsmn-changed.c:185-345 | Every JSON text that is accepted is, cut off anywhere within its value, rejected with exactly the error for a text cut off. |
| `JsonReject.BracketAfterEndIff` | components/json_parser/jsmn/src/jsmn-changed.c:218-241 | A closing bracket after an accepted text, with nothing to close, is rejected if and only if the text has no token; otherwise the tokens stay as they are and the text is accepted. |
| `JsonReject.RoomIff` | components/json_parser/jsmn/src/jsmn-changed.c:36-55 | A text that is accepted with some number of tokens is accepted with the same ones exactly if there is room for them, and otherwise rejected with the error for too few tokens. |
| `JsonReject.RoundsFailAlike` | components/json_parser/jsmn/src/jsmn-changed.c:185-330 | With room for a token, both passes fail in the same rounds with the same errors, but for what a closing bracket closes and what a number or literal follows, which only the storing pass looks at. |
| `JsonReject.SeparatorsAlone` | components/json_parser/jsmn/src/jsmn-changed.c:281-300 | A text of white space, commas and colons is accepted, with no token. |
| `JsonReject.Alphabet` | components/json_parser/jsmn/src/jsmn-changed.c:80-330 | The characters of each class that the tokenizer tells apart, spelled out. |
| `JsonStart.Jsmn.AddToken` | components/json_parser/jsmn/src/jsmn-changed.c:36-62 | A token is appended, closed and linked to its superior, if and only if there is room. |
| `JsonStart.Jsmn.BumpSuper` | components/json_parser/jsmn/src/jsmn-changed.c:208-209 | The size of the superior token goes up by one, and nothing else changes. |
| `JsonStart.Jsmn.ScanPrimitive` | components/json_parser/jsmn/src/jsmn-changed.c:73-94 | The loop stops at the first separator, or fails at the first character a primitive must not have. |
| `JsonStart.Jsmn.ScanHex` | components/json_parser/jsmn/src/jsmn-changed.c:157-168 | Up to four hexadecimal digits are passed. |
| `JsonStart.Jsmn.ScanEscape` | components/json_parser/jsmn/src/jsmn-changed.c:148-176 | The character after a backslash, and its digits, are passed or rejected. |
| `JsonStart.Jsmn.ScanString` | components/json_parser/jsmn/src/jsmn-changed.c:120-179 | The loop stops at the first quote that no backslash precedes, or fails. |
| `JsonStart.Jsmn.ParsePrimitive` | components/json_parser/jsmn/src/jsmn-changed.c:67-112 | The primitive is stored as a token, or only passed without a token array. |
| `JsonStart.Jsmn.ParseString` | components/json_parser/jsmn/src/jsmn-changed.c:117-180 | The string without its quotes is stored as a token, or only passed without a token array. |
| `JsonStart.Jsmn.Open` | components/json_parser/jsmn/src/jsmn-changed.c:199-217 | An opening bracket adds an open token, counts it in its superior and makes it the superior. |
| `JsonStart.Jsmn.Close` | components/json_parser/jsmn/src/jsmn-changed.c:218-241 | A closing bracket ends the container found up the parent links if it is of the same kind, and its parent becomes the superior. |
| `JsonStart.Jsmn.StoreString` | components/json_parser/jsmn/src/jsmn-changed.c:267-276 | A string is stored and counted in its superior. |
| `JsonStart.Jsmn.StorePrimitive` | components/json_parser/jsmn/src/jsmn-changed.c:302-325 | A primitive is stored and counted in its superior unless it stands where a key is due or is a second value. |
| `JsonStart.Jsmn.StoreComma` | components/json_parser/jsmn/src/jsmn-changed.c:282-288 | After a value the superior goes back from the key to its object. |
| `JsonStart.Jsmn.Store` | components/json_parser/jsmn/src/jsmn-changed.c:193-333 | A round of the main loop on the array does what a round of the proofs does, errors included. |
| `JsonStart.Jsmn.Tally` | components/json_parser/jsmn/src/jsmn-changed.c:193-333 | A round without an array counts what the counting pass of the proofs counts. |
| `JsonStart.Jsmn.CountTokens` | components/json_parser/jsmn/src/jsmn-changed.c:185-343 | The counting pass returns the count or error of the proofs. |
| `JsonStart.Jsmn.SomeOpen` | components/json_parser/jsmn/src/jsmn-changed.c:335-341 | The last loop finds whether any object or array has not been ended. |
| `JsonStart.Jsmn.Parse` | components/json_parser/jsmn/src/jsmn-changed.c:185-343 | The storing pass leaves the tokens of the proofs in the array and returns their number, or fails with the same error. |
| `JsonStart.ParseStart` | components/json_parser/json_parser.c:366-389 | For every text: a context is made if and only if the counting pass finds tokens and the storing pass succeeds with as many; its tokens are then the storing pass's, and every walk on them stays inside as `ObjGetValTok` says. For every JSON text: the call fails if and only if the text ends in a root primitive; otherwise the context has exactly the tokens of the tree and its cursor at the root. |
| `JsonForest.RoundGrows` | components/json_parser/jsmn/src/jsmn-changed.c:193-333 | Each round keeps the tokens a growing forest: between a token and its parent lie only descendants of the parent, sizes count children, text slices lie in what has been read, and toksuper is a token around the last one. |
| `JsonForest.AcceptedIsForest` | components/json_parser/jsmn/src/jsmn-changed.c:185-343 | Whatever the text, JSON or not: if the storing pass accepts it, its tokens are such a forest, all closed. |
| `JsonForest.TreeIsLaid` | components/json_parser/json_parser.c:30-39 | Every token of such a forest is the root of a tree laid out there, which ends inside the array. |
| `JsonForest.LaidIsUnique` | components/json_parser/json_parser.c:30-39 | No other tree is laid out there. |
| `JsonStart.KeyWithoutValue` | components/json_parser/json_parser.c:123-134 | The object with the one key a and no value is accepted, and the search for the value of that key looks past the last token. |
| `JsonTokens.EncodeIsLaid` | components/json_parser/json_parser.c:366-389 | The preorder encoding of any tree, put anywhere among other tokens, is laid out as the walks expect. |
| `JsonTokens.LaidKid` | components/json_parser/json_parser.c:30-39 | Each child of a laid-out node starts where the token counts of the children before it say, and names the node as parent. |
| `JsonNav.MatchIsEquality` | components/json_parser/json_parser.c:23-28 | On a laid-out node the comparison of prefix and length is equality with the node's text. |
| `JsonNav.FindMember` | components/json_parser/json_parser.c:102-121 | The member found is the first whose key is exactly the one asked for; none is found if and only if no key is. |
| `JsonNav.LookupMemberIff` | components/json_parser/json_parser.c:102-134 | A value is found if and only if the node is an object and the first member with that very key has a value of the type asked for; then it is that member's value. |
| `JsonNav.GoIff` | components/json_parser/json_parser.c:136-309 | On a JSON text an enter succeeds if and only if there is such a member or element, leads to its value, and else leaves the cursor; a leave succeeds if and only if the array, or the key and its object, are there to go back to, and leads to them. |
| `JsonNav.RoundTrip` | components/json_parser/json_parser.c:136-187 | Any well-bracketed sequence of successful enters and leaves, of any depth and mixing objects and arrays, brings the cursor back to its token. |
| `JsonNav.LeavesSucceed` | components/json_parser/json_parser.c:147-187 | In a well-bracketed sequence no leave fails. |
| `JsonContext.SkipElem` | components/json_parser/json_parser.c:30-39 | The recursive skip ends, at the last token of the element's subtree. |
| `JsonContext.Context.constructor` | components/json_parser/json_parser.c:366-389 | The cursor starts at the first token of any accepted text, which is the root of the tree of a JSON text. |
| `JsonContext.Context.ObjSearch` | components/json_parser/json_parser.c:102-121 | On any accepted text, from any token: the key token of the first member with exactly this key, or none, inside the array. |
| `JsonContext.Context.ObjGetValTok` | components/json_parser/json_parser.c:123-134 | On any accepted text, from any token: the token after that key if it has the type asked for; the source looks past the array if and only if the key is the last of all tokens, on a JSON text never. On a JSON text it is the member's value; only the first member with the key counts. |
| `JsonContext.Context.ArrSearch` | components/json_parser/json_parser.c:244-260 | On any accepted text, from any token: exactly the element with this index, inside the array, and none if and only if there is none. |
| `JsonContext.Context.ArrGetValTok` | components/json_parser/json_parser.c:261-271 | On any accepted text that element's token if it has the type asked for; on a JSON text the node at that index. |
| `JsonContext.Context.ObjEnter` | components/json_parser/json_parser.c:136-145 | The cursor moves to the token after the key or stays, and stays at a token of the array unless the key is the last one; on a JSON text it moves to the member's value. The size reported is the number of children of the token; it succeeds, on any text accepted, if and only if a key is found, the token after it is inside and has the type asked for, and on a JSON text if and only if the lookup in the tree does. |
| `JsonContext.Context.ArrEnter` | components/json_parser/json_parser.c:273-281 | The cursor moves to the element or stays, on any accepted text; it succeeds, on any text accepted, if and only if there is an element of the type asked for. |
| `JsonContext.Context.ArrLeave` | components/json_parser/json_parser.c:283-290 | The cursor moves up the parent link, or stays at a token without one and fails; on a JSON text it moves to the node that contains it. |
| `JsonContext.Context.ObjLeave` | components/json_parser/json_parser.c:147-161 | On any accepted text the cursor stays inside the array. On a JSON text it moves from a value past its key to the object; a cursor directly below the root fails at the root. |
| `JsonContext.Context.ObjGetString` | components/json_parser/json_parser.c:225-232 | The member's text and a terminator are written, and nothing else, if and only if the member is a string that fits the size given with its terminator; a size of zero or below fits nothing. On any accepted text nothing is written unless that succeeds. |
| `JsonContext.Context.TokToString` | components/json_parser/json_parser.c:92-100 | The text of a token and a terminator are put at the front of the buffer and the rest is left as it was, if and only if they fit the size given; otherwise nothing changes. |
| `HttpChunk.SizeLineFits` | components/httpc/httpc.c:742-745 | For every data length the size line has at most 10 of the 12 bytes of its buffer, so the length check never fails. |
| `HttpChunk.HexIsLower` | components/httpc/httpc.c:742-742 | The digits of the size are those of %x, with letters in lower case. |
| `HttpChunk.DecodeChunk` | components/httpc/httpc.c:735-757 | A decoder written from section 4.1 of RFC 7230 reads a chunk of 1 to 2^32 - 1 bytes back and goes on with what follows it. |
| `HttpChunk.DecodeLast` | components/httpc/httpc.c:759-766 | The same decoder takes the last chunk for the end of the body and leaves what follows it. |
| `HttpChunk.DecodeEncode` | components/httpc/httpc.c:735-766 | For any list of pieces below 2^32 bytes, the decoder recovers exactly the pieces before the first empty one, and leaves the rest of the wire unread. |
| `HttpChunk.RoundTripIff` | components/httpc/httpc.c:735-766 | The whole body comes back if and only if nothing but empty pieces follows an empty piece. |
| `HttpChunk.ChunkSentIff` | components/httpc/httpc.c:735-757 | A chunk reported as sent is on the wire if and only if each of its three writes took everything; the source ignores partial writes. |
| `HttpChunk.ChunkResult` | components/httpc/httpc.c:735-757 | Whatever the connection takes of each write: a call returns 0 if and only if none of its three writes fails, and -1 otherwise, with exactly the bytes taken up to the failing write on the wire and no write after it. |
| `HttpChunk.LastResult` | components/httpc/httpc.c:759-766 | The same of the call that sends the last chunk, with its one write. |
| `HttpChunk.AllResult` | components/httpc/httpc.c:735-766 | A whole transfer returns 0 if and only if none of its writes, three for each piece and one for the end, fails, and -1 otherwise, with exactly the bytes taken up to the failing write on the wire. |
| `HttpChunk.LeftAfter` | components/httpc/httpc.c:735-757 | The writes made are all of them, or those up to and with the first that fails. |
| `HttpChunk.SentIsDecoded` | components/httpc/httpc.c:735-766 | When the connection takes every write whole, sending any non-empty pieces and the last chunk succeeds, and the other side decodes exactly their concatenation. |
| `HttpChunkedBody.ReadsChunk` | components/httpc/httpc.c:735-757 | A client-side parser for chunked responses takes any chunk the encoder writes for exactly its data. |
| `HttpChunkedBody.EncodedIsWhole` | components/httpc/httpc.c:735-766 | A response of any header section (section 3 of RFC 7230) and the encoding of any non-empty pieces is complete, and its body is the concatenation of the pieces. |
| `HttpChunkedBody.Transfer` | components/httpc/httpc.c:648-766 | The two halves of the component together: what http_send_chunk and http_send_last_chunk write, http_response_recv delivers, byte for byte, for any header lines, pieces, splits into reads, timeouts and buffer sizes. |
| `HttpChunkedBody.EndsEarly` | components/httpc/httpc.c:648-733 | For every such response and every buffer smaller than its body: a client whose header fetch times out at its first read gets -EAGAIN from it and then 0, the end of the response, after at most one buffer of the body. |
| `HttpChunk.ChunkSender.HttpSendChunk` | components/httpc/httpc.c:735-757 | The method does to the connection what the encoder of the round trip does, for every pattern of write results. |
| `HttpChunk.ChunkSender.HttpSendLastChunk` | components/httpc/httpc.c:759-766 | The method does to the connection what the encoder does for the last chunk, for every write result. |
| `HttpHeaders.StoreIff` | components/httpc/httpc.c:438-450 | A name or value delivered in any fragments is stored whole if and only if it is shorter than MAX_HDR_VAL_LEN. |
| `HttpHeaders.StoreCuts` | components/httpc/httpc.c:438-530 | What is stored of a name or value that is too long: its first characters up to the buffer's size, unless the first fragment alone is too long, which loses what stands between its own cut and the next fragment. |
| `HttpHeaders.NamesInEitherCase` | components/httpc/httpc.c:406-480 | The location and content type headers are recognised in upper and lower case, and no other name is. |
| `HttpHeaders.OnField` | components/httpc/httpc.c:428-454 | Name fragments of any length keep every text and its terminator within its buffer. |
| `HttpHeaders.OnValue` | components/httpc/httpc.c:456-499 | Value fragments of any length do so too, and a location being continued has a buffer. |
| `HttpHeaders.GrowLocation` | components/httpc/httpc.c:479-489 | Either resize formula leaves room for the pending fragment, and the buffer stays within a constant factor of the text. |
| `HttpHeaders.LocationDoubles` | components/httpc/httpc.c:479-505 | The buffer is replaced if and only if the text does not fit, and then at least doubles; a first fragment leaves room for 511 more characters. |
| `HttpHeaders.LocationStored` | components/httpc/httpc.c:463-489 | A location in any fragments and of any length is stored as their concatenation, in a buffer larger than it. |
| `HttpHeaders.BlockReported` | components/httpc/httpc.c:406-536 | For any block of headers that fit, split in any way: the header callback gets every header once and in order, the location is the last location value, the content type the last content type reported. |
| `HttpHeaders.ExpectedOf` | components/httpc/httpc.c:413-416 | Each callback carries its own name and value, except that a location header comes with the value of the header before it. |
| `HttpHeaders.TrailersReported` | components/httpc/httpc.c:432-436 | With trailers after the end of any block of headers: the last header of the block is reported a second time, then all trailers but the last. |
| `HttpHeaderBuffers.CopyAt` | components/httpc/httpc.c:443-449 | A copy into a C string buffer leaves the old prefix followed by the new text and its terminator. |
| `HttpHeaderBuffers.HeaderParser.constructor` | components/httpc/httpc.c:597-611 | A new request starts with empty buffers. |
| `HttpHeaderBuffers.HeaderParser.ProcessHdrValuePair` | components/httpc/httpc.c:406-426 | The pair in the buffers is reported unless the name is empty, and a content type is kept. |
| `HttpHeaderBuffers.HeaderParser.GetHdrField` | components/httpc/httpc.c:428-454 | On terminated buffers within bounds, the callback refines `HttpHeaders.OnField`. |
| `HttpHeaderBuffers.HeaderParser.GetHdrValue` | components/httpc/httpc.c:456-499 | On terminated buffers within bounds, the callback refines `HttpHeaders.OnValue`. |
| `HttpHeaderBuffers.HeaderParser.StartValue` | components/httpc/httpc.c:472-478 | The first fragment of a value replaces the old value, clipped to the buffer. |
| `HttpHeaderBuffers.HeaderParser.ExtendValue` | components/httpc/httpc.c:490-494 | A further fragment is appended as far as the buffer goes. |
| `HttpHeaderBuffers.HeaderParser.StartLocation` | components/httpc/httpc.c:463-471 | The first fragment of a location gets a buffer with 512 bytes to spare. |
| `HttpHeaderBuffers.HeaderParser.ExtendLocation` | components/httpc/httpc.c:479-489 | A further fragment is appended whole; the buffer is replaced by a larger one with the same text when it does not fit. |
| `HttpHeaderBuffers.HeaderParser.HdrComplete` | components/httpc/httpc.c:524-536 | The last pair of the block is reported at its end. |
| `HttpBody.ReadPart` | components/httpc/httpc.c:98-113 | However a response is split in two, the body, the validity and the completeness of the whole are those of the first part followed by those of the rest. |
| `HttpBody.HeadersFirst` | components/httpc/httpc.c:117-126 | As long as the headers are being read, no body data has been read. |
| `HttpBody.SilentPart` | components/httpc/httpc.c:98-113 | However a wire is split in two, it brings nothing of an answer exactly if neither part does. |
| `HttpClient.HungIff` | components/httpc/httpc.c:117-126 | Into a buffer of any size, the loop over the headers never ends if and only if the peer closes before the first byte of its answer and neither a timeout nor an error comes before that. |
| `HttpClient.TruncatedHead` | components/httpc/httpc.c:117-140 | If the peer closes in the middle of the headers, with neither timeout nor error before, the loop over the headers ends with -1, for every split of the reads. |
| `HttpClient.MoveDown` | components/httpc/httpc.c:518-518 | Copying a fragment down in the buffer it is in gives the old prefix followed by the old fragment and leaves what follows the fragment as it was. |
| `HttpClient.Conn.ConnRead` | components/httpc/httpc.c:99-99 | A read takes between one byte and the buffer's length from the wire, in order, and none only when the peer has closed; a timeout, which is -EAGAIN, or an error takes nothing. |
| `HttpClient.Conn.GetBody` | components/httpc/httpc.c:501-522 | The fragment is appended to what has been kept if and only if it fits, and no byte after the fragment changes; without an output buffer nothing changes. |
| `HttpClient.Conn.HandOver` | components/httpc/httpc.c:501-522 | The check for a full buffer never fails: whatever the fragments, what is kept lies below them. |
| `HttpClient.Conn.ParseByte` | components/httpc/httpc.c:107-109 | One byte through any parser, on the live buffer: the body of the bytes read is what has been kept followed by the pending fragment and the body of what is left, and no unread byte has changed. |
| `HttpClient.Conn.ParseBytes` | components/httpc/httpc.c:107-109 | The same for all bytes of a read; the parse stops early only on malformed bytes. |
| `HttpClient.Conn.Advance` | components/httpc/httpc.c:524-543 | The two callbacks keep the connection state in step with the parser. |
| `HttpClient.Conn.Execute` | components/httpc/httpc.c:107-114 | The buffer's first out_buf_index bytes are exactly the body carried by the bytes read, and the parse stops short if and only if the bytes are malformed. |
| `HttpClient.Conn.ExecuteAtClose` | components/httpc/httpc.c:98-113 | A close completes a body that runs until the close, is nothing to a parser that has not seen a byte of the answer, and is an error in every other state. |
| `HttpClient.Conn.ReadAndParse` | components/httpc/httpc.c:86-115 | The exact status: a timeout, an error of the connection, malformed bytes, a close in the middle. The body still on the wire before the call is what the call leaves in the buffer followed by what is still on the wire; a timeout changes nothing, and so does a close before the first byte of the answer, which returns 0. |
| `HttpClient.Conn.ReadOn` | components/httpc/httpc.c:117-126 | Once the peer has closed before the first byte and nothing else comes, any number of reads return 0 and leave the state below the one the loops wait for. |
| `HttpClient.Conn.HeaderLoop` | components/httpc/httpc.c:117-126 | The exact outcome for every wire, every sequence of arrivals and every buffer: the headers are read to their end with the body data read along with them in the buffer, or the first timeout or error is returned, or the loop never ends. After a timeout no body data has been lost. |
| `HttpClient.Conn.HeaderFetch` | components/httpc/httpc.c:715-733 | The same exact outcome: in particular a first read that times out returns -EAGAIN. Fetching the headers first loses no body data: what is left to deliver is unchanged. A fetch that times out leaves an overflow buffer with nothing in it behind. |
| `HttpClient.Conn.TakeKept` | components/httpc/httpc.c:677-689 | As much of the overflow buffer as fits is copied out, in order, and the rest stays. |
| `HttpClient.Conn.RecvOverflow` | components/httpc/httpc.c:676-690 | Data kept by a header fetch is delivered next, and the buffer is freed when it is used up; nothing is delivered if and only if the buffer is one that a timeout has left behind. |
| `HttpClient.Conn.RecvHeaders` | components/httpc/httpc.c:654-669 | If the headers are still to be read they are, and the body data that comes with them is the next of the body; after a timeout nothing is lost; it does not return exactly if the peer closes before the first byte and no timeout or error comes. |
| `HttpClient.Conn.Recv` | components/httpc/httpc.c:648-713 | A positive result is exactly the next bytes of the body; a timeout loses nothing and the call can be made again; 0 is returned only when all of the body has been delivered and the response is complete, unless a header fetch has timed out before: then one 0 comes too early; the call does not return if and only if the peer closes before the first byte of its answer and no timeout or error comes; any other error only if the response is malformed or cut off or the connection breaks; after a 0 no overflow buffer is held. |
| `HttpClient.Conn.RecvBody` | components/httpc/httpc.c:691-712 | The loop that skips reads without body data ends, with the next bytes of the body, at the end of the message, or with a timeout or an error. |
| `HttpClient.Conn.Flush` | components/httpc/httpc.c:581-596 | The rest of the last response is consumed to its end however many reads time out, or an error tells that it was malformed or cut off or the connection broke; the loop never ends if and only if the peer closes before the first byte of that response and the connection does not break. |
| `HttpClient.Conn.RequestNew` | components/httpc/httpc.c:574-613 | After a request has been sent before, the new request starts with nothing of the old response left on the wire or in a buffer; it does not return if and only if the peer closes before the first byte of the old response and the connection does not break. The overflow buffer is leaked if and only if one is still held. |
| `HttpClient.Conn.RequestSend` | components/httpc/httpc.c:385-398 | What the following calls will deliver is the body of the answer to this request alone. |
| `HttpClient.Conn.Drain` | components/httpc/httpc.c:648-713 | Calls made again after timeouts until 0 is returned deliver exactly what was left of the body, or at most one buffer of it after a header fetch that has timed out; they never come to an end exactly as in `ReceiveAll`. |
| `HttpClient.Conn.ReceiveAll` | components/httpc/httpc.c:648-733 | For every response, every split into reads with timeouts anywhere, every sequence of positive buffer sizes, with or without a header fetch: a client that stops at 0 has exactly the body if its header fetch has not failed, and if the body is longer than its first buffer only then; it stops at 0 if the response is complete and the connection holds, and never comes to an end if and only if the peer closes before the first byte and the connection holds. |
| `HttpClient.ReceiveNothing` | components/httpc/httpc.c:648-733 | The empty response is such an input: for every parser and all buffers the client waits for ever. |
| `SendLoop.SendAccounts` | components/sh2lib/sh2lib.c:52-80 | For every pattern of write results, r >= 0 means that exactly the first r bytes went out, in order; an error means none did, and comes if and only if the first write of a non-empty buffer fails. |
| `SendLoop.SendExact` | components/sh2lib/sh2lib.c:38-80 | For every pattern of write results, which writes a call makes: pieces of up to 1000 bytes, each from where the one before has ended, until all is out or one takes nothing; what it returns then, with -504 for a first write that wants to read or write and -902 for any other. |
| `SendLoop.CallsAccount` | components/sh2lib/sh2lib.c:52-80 | Over any number of calls, each resuming where the last one stopped, the wire carries each byte once and in order. |
| `SendLoop.CallsComplete` | components/sh2lib/sh2lib.c:52-80 | Unless a write fails for good, one call more than there are disturbed writes gets everything out. |
| `SendLoop.Sh2Handle.CallbackSendInner` | components/sh2lib/sh2lib.c:38-50 | A result of 0 or below becomes one of the two error codes, by whether the connection wants to be retried. |
| `SendLoop.Sh2Handle.CallbackSend` | components/sh2lib/sh2lib.c:52-80 | The loop over chunks of 1000 bytes ends and does to the connection what the accounting is proved about. |
| `StreamSpec.Program` | components/streams/audio_stream.c:284-336 | The calls as sequences of flag writes, gives and frees: only destroy writes its flag, first of all, and only it frees, after it has waited. |
| `StreamRuns.StepKeepsInv` | components/streams/audio_stream.c:74-336 | Each small step of the task and of every call keeps the protocol's invariant. |
| `StreamRuns.NoUseAfterFree` | components/streams/audio_stream.c:74-196 | In every interleaving of the task with any number of calls, the task takes the semaphore and fills the buffer only while they exist; once either is freed the state is DESTROYED and the task has no step left. |
| `StreamRuns.CallsUseFreedIff` | components/streams/audio_stream.c:284-336 | When a destroy call frees the buffer, a call clears the freed buffer in some continuation in which no other call begins if and only if some other call has not cleared it yet; the same for giving the freed semaphore. |
| `StreamRuns.DestroyKeptIff` | components/streams/audio_stream.c:318-326 | The destroy flag stays set in every continuation if and only if, when it is stored, nobody else is between the load and the store of a flag: the flags share a byte, so a stale store wipes it out. |
| `StreamRuns.SafeAfterReport` | components/streams/audio_stream.c:318-326 | What a caller can go by: when every other call has returned with the run flag 0, no other call has begun, and STOPPED, PAUSED or FAILED has been the last report since, the destroy flag is stored with no other write in progress and stays set in every continuation. |
| `StreamRuns.SafeUntilStarted` | components/streams/audio_stream.c:318-326 | The same holds in every run from the creation in which no start call has been made and every other call has returned. |
| `StreamRuns.NeverBlocked` | components/streams/audio_stream.c:318-329 | Once the flag is kept and the semaphore given, the task can always go on until it is done; in particular it never waits on an empty semaphore. |
| `StreamRuns.DestroyCompletes` | components/streams/audio_stream.c:87-175 | From there every interleaving lets the task make at most its budget of steps, and a run with that many has reached DESTROYED. |
| `StreamRuns.BudgetBound` | components/streams/audio_stream.c:87-175 | The budget is at most 17 steps and 2 for each wakeup of the reader (-3). |
| `StreamRuns.DestroyHonoured` | components/streams/audio_stream.c:318-336 | A destroy call whose store meets no other write in progress is honoured in every interleaving: any steps up to its give, then at most 17 + 2 * wakeups steps of the task until DESTROYED. |
| `StreamRuns.LostDestroy` | components/streams/audio_stream.c:303-336 | A run in which a pause call overlaps a destroy call and ends with the destroy call waiting, the task blocked on an empty semaphore, and no step left but a new call. |
| `StreamRuns.EventsInOrder` | components/streams/audio_stream.c:62-175 | In every interleaving runs are reported one after the other: each STARTED is followed by one STOPPED or PAUSED before the next STARTED or FAILED, and DESTROYED is the last event, before the state says so. |
| `StreamRuns.StartIsFollowed` | components/streams/audio_stream.c:284-292 | Once a start has set the run flag and given the semaphore of a waiting stream: in every interleaving in which no call begins, STARTED is reported next, after at most 11 steps of the task, which never has to wait; or else FAILED, only if the initialisation of its context fails. |
| `StreamRuns.StopIsFollowed` | components/streams/audio_stream.c:294-301 | Once a stop has cleared the flags of a stream that moves data: in every interleaving in which no call begins, STOPPED is reported next, after at most 12 steps of the task, whatever its callbacks answer. |
| `StreamRuns.PauseIsFollowed` | components/streams/audio_stream.c:303-308 | Once a pause has set its flag while the stream moves data: in every interleaving in which no call begins, PAUSED is reported next, even if the data end, after at most 9 steps of the task and 2 for each wakeup of the reader. |
| `StreamCalls.StartCallIsFollowed` | components/streams/audio_stream.c:284-316 | From the first step of a start call, or of a resume call of a stream whose run flag is set, made while the task waits and no other call writes a flag: up to its return and in every interleaving from there on STARTED is the next event, at most 11 steps of the task after the return; or FAILED, and only after a failed initialisation. |
| `StreamCalls.StopCallIsFollowed` | components/streams/audio_stream.c:294-301 | From the first step of a stop call made while the stream moves data, in every interleaving STOPPED is the next event, at most 12 steps of the task after the return. |
| `StreamCalls.PauseCallIsFollowed` | components/streams/audio_stream.c:303-308 | The same of a pause call and PAUSED, within 9 steps and two for each wakeup, if the data do not end before it returns. |
| `StreamCalls.CallGoesOn` | components/streams/audio_stream.c:284-316 | These calls never wait: in every state they have a next step until they return, and each brings them nearer to that. |
| `StreamCalls.ClearsAndWakes` | components/streams/audio_stream.c:284-336 | Every call but a pause gives the semaphore, and a start call alone clears the buffer, once and before that. |
| `StreamCallbacks.CallInitialises` | components/streams/audio_stream.c:74-121 | If the task has not looked at the pause flag by the return of a start or resume call, then in every interleaving the context is initialised, once, before STARTED; so a resume initialises a context that the pause has not cleaned up. |
| `StreamCallbacks.StartInitialisesIff` | components/streams/audio_stream.c:104-121 | STARTED is reported with the context initialised before it if and only if the pause flag is clear when the task looks at it; a pause call that comes before that makes the stream start without. |
| `StreamCallbacks.FailureCleansNothing` | components/streams/audio_stream.c:105-112 | A failed initialisation is reported as FAILED and not cleaned up. |
| `StreamCallbacks.PauseKeepsContext` | components/streams/audio_stream.c:161-164 | A pause is reported, and the context is not cleaned up, until the task waits again. |
| `StreamCallbacks.StopSignalsIff` | components/streams/audio_stream.c:164-175 | STOPPED is reported after one cleanup of the context, and before that a reader, and only if its run flag is clear, signals the end of the data. |
| `StreamCallbacks.IdleCleansUp` | components/streams/audio_stream.c:98-103 | A wakeup without the run flag cleans the context up and reports nothing. |
| `StreamCallbacks.StopWhileWaiting` | components/streams/audio_stream.c:294-301 | A stop call made while the task waits, as for a paused stream, with no other call under way: in every interleaving the context is cleaned up once, nothing is reported, and both flags end up clear. |
| `StreamCallbacks.EndCleansUp` | components/streams/audio_stream.c:176-190 | DESTROYED is reported before the context is cleaned up. |
| `StreamCallbacks.StateFollows` | components/streams/audio_stream.c:87-190 | In every interleaving the state is RUNNING from before STARTED is reported until after the end of that run is, STOPPED whenever the task waits, and DESTROYED exactly once the task has ended. |
| `StreamCallbacks.PausedForAMoment` | components/streams/audio_stream.c:161-164 | The state is PAUSED after PAUSED has been reported, until the next step of the task. |
| `PipeSpec.CodecAt` | components/audio_pipeline/audio_pipeline.c:484-498 | The block found is the first codec block; there is none if and only if no block is one. |
| `PipeRuns.FitIsSound` | components/audio_pipeline/audio_pipeline.c:376-452 | In a pipeline wired in full every ring buffer any stream or codec refers to exists, and has its own block as its only writer and the next block as its only reader. |
| `PipeRuns.ReplaceStreamKeepsFit` | components/audio_pipeline/audio_pipeline.c:136-165 | Replacing the input stream keeps the wiring; on success the new stream is plugged into the same ring buffer and the old one is dead, on failure nothing changed. |
| `PipeRuns.PlugStreamKeepsFit` | components/audio_pipeline/audio_pipeline.c:547-575 | Going from an input callback to a stream keeps the wiring in every outcome, makes a ring buffer of the recorded size that the codec reads from, and yet never returns ESP_OK. |
| `PipeRuns.SetInputStreamKeepsFit` | components/audio_pipeline/audio_pipeline.c:528-576 | Every call, accepted or refused, keeps the wiring and the number of blocks. |
| `PipeRuns.SetCodecKeepsFit` | components/audio_pipeline/audio_pipeline.c:578-599 | ESP_OK is returned if and only if the pipeline is idle, has a codec and the new one can be initialised or is the old one; then it is wired in, otherwise nothing changed. |
| `PipeRuns.SetInputCbKeepsFit` | components/audio_pipeline/audio_pipeline.c:601-626 | With a codec, ESP_OK is returned if and only if the pipeline is idle, and then the codec reads from the callback. |
| `PipeRuns.SetInputCbSoundIff` | components/audio_pipeline/audio_pipeline.c:601-626 | Setting an input callback on an idle pipeline is sound if and only if it has a codec; the output stream of one without is left reading a freed ring buffer, and ESP_OK is returned all the same. |
| `PipeRuns.PlugStreamLeaksIff` | components/audio_pipeline/audio_pipeline.c:547-574 | Plugging a stream in leaks a ring buffer if and only if an earlier attempt, whose stream could not be initialised, left one in the block. |
| `PipeRuns.InputCbLeaksNothing` | components/audio_pipeline/audio_pipeline.c:601-626 | Setting an input callback frees the ring buffer it makes useless and no other. |
| `PipeRuns.SwapStreamLeaksNothing` | components/audio_pipeline/audio_pipeline.c:136-165 | Replacing a stream neither makes nor frees a ring buffer. |
| `PipeRuns.SwapCodecLeaksNothing` | components/audio_pipeline/audio_pipeline.c:167-188 | Replacing a codec neither makes nor frees a ring buffer. |
| `PipeRuns.DestroyFreesRings` | components/audio_pipeline/audio_pipeline.c:299-310 | Destruction frees exactly the ring buffers of the blocks. |
| `PipeRuns.DestroyKillsAll` | components/audio_pipeline/audio_pipeline.c:299-310 | Destruction destroys the stream or codec of every block. |
| `PipeRuns.DestroyIsComplete` | components/audio_pipeline/audio_pipeline.c:289-315 | If nothing has been leaked, destruction leaves only what was there before the pipeline. |
| `PipeRuns.DestroyDangles` | components/audio_pipeline/audio_pipeline.c:299-310 | Destruction frees a ring buffer before its users are destroyed: at each step, exactly which blocks have a live stream or codec that refers to a freed ring buffer. Whenever a block fills a ring buffer that is two of them at first, and then the next block until its turn. |
| `PipeRuns.UnplugDangles` | components/audio_pipeline/audio_pipeline.c:612-626 | Setting an input callback leaves the block after the input referring to the freed ring buffer, and no other, until the codec gets its new input; without a codec for good. |
| `PipeRuns.CreateSoundIff` | components/audio_pipeline/audio_pipeline.c:376-452 | A pipeline created successfully is sound, and wired in full, if and only if it has an input stream or a codec; otherwise the output stream reads from no ring buffer. |
| `PipeRuns.CreateLeaksIff` | components/audio_pipeline/audio_pipeline.c:376-452 | A creation, successful or not, leaks a ring buffer if and only if the stream or codec that was to fill it cannot be initialised; a failed one leaves no stream or codec of its blocks live. |
| `PipeRuns.EveryRun` | components/audio_pipeline/audio_pipeline.c:528-626 | Every sequence of rewiring calls, successful or not, mixed with the locked parts and the reports of events in any order keeps a pipeline with a codec sound, with its three blocks and cnt; one without a codec keeps its wiring as long as no input callback is set. |
| `PipeRuns.LifeCycle` | components/audio_pipeline/audio_pipeline.c:289-626 | From creation through any rewiring without half-made attempts to destruction, every ring buffer that was made is freed, every other is left alone, and the streams and codec last plugged in are dead. |
| `PipeParts.PartsLife` | components/audio_pipeline/audio_pipeline.c:136-626 | From creation through any rewiring and any events, the streams and codecs that the pipeline has made live are exactly those of its blocks, so one replaced or unplugged is destroyed; destruction leaves live exactly what was live before the creation. |
| `PipeParts.SizesStay` | components/audio_pipeline/audio_pipeline.c:114-626 | Every ring buffer made for a block, at creation or later, has the size configured for it. |
| `PipeRuns.BusyRunKeepsWiring` | components/audio_pipeline/audio_pipeline.c:534-537 | A run of calls and events through states other than INITED and STOPPED leaves the wiring as it was. |
| `PipeEvents.EveryRun` | components/audio_pipeline/audio_pipeline.c:36-94 | In every interleaving of the locked parts and the single reads of the tasks that report events, the application is told, in the order of the changes of state, each state as often as tasks tell it while it lasts, and nothing else; the state is never RESUMED. |
| `PipeEvents.StepKeepsInv` | components/audio_pipeline/audio_pipeline.c:36-94 | Each locked part, each of the three reads and each report keeps the reports those that the history of changes amounts to. |
| `PipeEvents.AcceptsIff` | components/audio_pipeline/audio_pipeline.c:248-287 | In each state exactly which commands are accepted: a start when new or stopped, a resume when paused, a pause and a stop when playing. A refused one does nothing. The rewiring calls act exactly in the first of these, and are otherwise refused with no change. |
| `PipeEvents.AfterEvent` | components/audio_pipeline/audio_pipeline.c:53-83 | After the locked part for a stopped event the pipeline is STOPPED and exactly a start and rewiring are accepted, for a paused event PAUSED and exactly a resume, for a started event STARTED and exactly a pause and a stop; any other event leaves the state, and none touches blocks, streams, rings or record. |
| `PipeEvents.LastEventDecides` | components/audio_pipeline/audio_pipeline.c:53-91 | In every interleaving the state, and what a task that tells anything next tells, is what the last start, stop or pause event to take the lock has reported. |
| `PipeEvents.TellsIff` | components/audio_pipeline/audio_pipeline.c:86-88 | Whatever other tasks do before, between and after its reads, and in whichever order it makes them: a task reports if and only if the old state when it reads it differs from the state when it reads that. |
| `PipeEvents.InOneGo` | components/audio_pipeline/audio_pipeline.c:84-91 | The reads and the report of a task with nothing in between are those of `EventReport`. |
| `PipeEvents.ToldUpToNextChange` | components/audio_pipeline/audio_pipeline.c:53-88 | For every change of state, any steps while the state lasts, the next change and then anything: the application is told the state exactly as often as tasks tell it anything while it lasts, so the change is lost if and only if none does. |
| `PipeEvents.RecordIff` | components/audio_pipeline/audio_pipeline.c:53-88 | In every run of a new pipeline, what the application has been told is the history of its states if and only if each state was told exactly once while it lasted. |
| `PipeEvents.SerialRecord` | components/audio_pipeline/audio_pipeline.c:53-88 | If no task takes the lock before the one that had it last is done, the application is told of every change once, never of the same state twice in a row, and last of the current state. |
| `PipeEvents.OvertakenIsLost` | components/audio_pipeline/audio_pipeline.c:53-88 | A change whose task is overtaken, before its reads, by another one with the same state to report is never told, whatever comes after. |
| `PipeEvents.StartIsLost` | components/audio_pipeline/audio_pipeline.c:53-88 | A run in which the stream and the codec of a new pipeline report their start, the pipeline is STARTED and the application has been told nothing. |
| `PipeEvents.LostBetweenReads` | components/audio_pipeline/audio_pipeline.c:84-91 | A change that another task undoes between the two reads of its own task is lost, and the state before it is told a second time. |
| `PipeEvents.ToldTwice` | components/audio_pipeline/audio_pipeline.c:53-88 | A task that compares late reports the change of another task a second time. |
| `PipeRuns.CommandsTouchLive` | components/audio_pipeline/audio_pipeline.c:190-287 | Every command of a pipeline wired in full touches only existing ring buffers and live streams and codecs; an accepted start reaches every block, a pause and a resume reach the output stream; a refused command does nothing. |
| `PipeRuns.StopTouchesLive` | components/audio_pipeline/audio_pipeline.c:190-205 | A stop reaches exactly the stream or codec nearest the source. |
| `PipeRuns.StartCovers` | components/audio_pipeline/audio_pipeline.c:207-222 | A start resets every ring buffer and leaves no stream or codec out. |
| `PipeParts.StartsInOrder` | components/audio_pipeline/audio_pipeline.c:207-222 | A start resets the ring buffer of a block before it starts what fills it, and starts the blocks from the source on. |
| `PipeDriver.AudioPipe.constructor` | components/audio_pipeline/audio_pipeline.c:96-112 | A new pipeline is INITED and has no blocks. |
| `PipeDriver.AudioPipe.CreateInsertBlock` | components/audio_pipeline/audio_pipeline.c:114-134 | A block goes to the head or the tail, and is counted. |
| `PipeDriver.AudioPipe.GetCodecBlock` | components/audio_pipeline/audio_pipeline.c:484-498 | The loop over the list finds the first codec block. |
| `PipeDriver.AudioPipe.ReplaceStreamAt` | components/audio_pipeline/audio_pipeline.c:136-165 | The method refines the replacement the wiring proofs are about. |
| `PipeDriver.AudioPipe.ReplaceCodecAt` | components/audio_pipeline/audio_pipeline.c:167-188 | The method refines the replacement of a codec the wiring proofs are about. |
| `PipeDriver.AudioPipe.SetInput` | components/audio_pipeline/audio_pipeline.c:528-576 | The call refines its transition in every outcome, with its return value. |
| `PipeDriver.AudioPipe.ChangeCodec` | components/audio_pipeline/audio_pipeline.c:578-599 | The call refines its transition in every outcome, with its return value; without a codec it fails and changes nothing. |
| `PipeDriver.AudioPipe.SetCallback` | components/audio_pipeline/audio_pipeline.c:601-626 | The call refines its transition in every state, with its return value. |
| `PipeDriver.AudioPipe.Destroy` | components/audio_pipeline/audio_pipeline.c:289-315 | The loop over the list destroys every block. |
| `PipeDriver.AudioPipe.Build` | components/audio_pipeline/audio_pipeline.c:376-448 | The assembly stops at the first step that fails, with what has been made until then. |
| `PipeDriver.AudioPipe.Start` | components/audio_pipeline/audio_pipeline.c:207-222 | The loop acts on every block in order, resetting its ring buffer before starting it. |
| `PipeDriver.AudioPipe.Stop` | components/audio_pipeline/audio_pipeline.c:190-205 | The loop stops at the first stream or codec. |
| `PipeDriver.AudioPipe.StateMachine` | components/audio_pipeline/audio_pipeline.c:248-287 | The commands accepted in each state, and what they act on. |
| `PipeDriver.AudioPipe.EventLocked` | components/audio_pipeline/audio_pipeline.c:53-83 | What the event callback does under the lock: the state becomes the one the event asks for, and the old one is kept beside it. |
| `PipeDriver.AudioPipe.EventReport` | components/audio_pipeline/audio_pipeline.c:84-91 | What it does without the lock, if no other task comes in between: the current state is reported if it differs from the old one, whichever event set them. |
| `PipeDriver.CreatePipe` | components/audio_pipeline/audio_pipeline.c:376-452 | NULL is returned if and only if a step fails, after what was assembled has been destroyed. |

## Left out

- The FreeRTOS-timer build of the button: changing a timer's period there also starts it, so the button model is the esp_timer build.
- `iot_button_rm_cb` and `iot_button_delete`, and callbacks that call back into the button's own functions.
- The 120 ms pause between channel groups, the blocking wait for the end of a scan, and the lock of the scan: two error paths give a mutex that they have not taken.
- ScanDriver.MergeBack: keeps its counters as unbounded integers, so it models the int8_t counters of the source for MAX_SCAN_RESULTS up to 127.
- JsonStart.ParseStart: allocation succeeds; of the texts that are not JSON the project shows families that are rejected and some that are accepted, and of all those accepted what their tokens look like.
- Conversions of JSON tokens to booleans and numbers: they hand the text to the C library.
- HttpHeaderBuffers.HeaderParser.ExtendLocation: buf_size is unbounded here and an int in the source, and allocation succeeds.
- HttpClient.Conn.Recv: does not model a buffer of length 0; what esp_tls_conn_read returns for one is not part of this model.
- Building request headers, redirects, connection set-up, keep-alive and TLS.
- StreamRuns.DestroyHonoured: is about a state machine on values and not about an object updated in place, because what matters is the interleaving of single accesses by several threads; what the callbacks do is not modelled, only what they answer and that they return.
- Calls that begin after a destroy call has freed the stream; `StreamRuns.CallsUseFreedIff` is about those under way.
- What a start, stop, pause or resume call comes to while another call writes a flag, or a start that races with the natural end of a run: the source does not promise it.
- StreamSpec.Program: the destroy call is made once; a second one would wait or free again.
- The pipeline's streams, codecs and ring buffers are values in a table; the run-time behaviour of codecs and ring buffers is not part of this model.
- What a live stream or codec does while it refers to a freed ring buffer (`PipeRuns.DestroyDangles`): only that it refers to one is shown.
- PipeRuns.EveryRun: says nothing about a pipeline without a codec after an input callback has been set, which `PipeRuns.SetInputCbSoundIff` shows to be broken.
- PipeDriver.AudioPipe.EventReport: is the case that no other task comes between its reads, `PipeEvents` having the others; a compiler that keeps the state it has compared for the report is not modelled, and the report of a changed frequency is not recorded among the states reported.
- Failed initialisations in the pipeline give a mutex that has not been taken.
- Failures of memory allocation, except where a ring buffer, stream or codec reports them to the pipeline.
- The connection manager's own states, BLE and SoftAP transport, generated protobuf code, LED patterns, command line and storage wrappers: input and output with no algorithm of their own.

# RunNginx: verified core logic

RunNginx is an nginx-like HTTP server. This project models the parts of it whose logic is hard to
see at a glance and proves what they are for: that the readers read what the writers write, that the
fast forms do what the simple ones do, and that the state machines keep their promises over every
run.

Three groups of modules follow the program's own components.

**Readers and writers.** `CrlfScan` is the CRLF finder in its scalar form and its bit-mask form.
`HttpHead` is the HTTP/1.1 head parser, with the spellings it reads; `RequestWriters` are the two
programs that render requests, the reverse proxy and the HTTP/2 bridge (RFC 9112, sections 2.1, 3
and 5), and `ForwardedHeaders` says header by header what arrives. `ProxyResponse` is the response
writer, the proxy's completeness test and read loop, and its response parser (RFC 9112, section 4);
`ProxyFraming` has the responses without a length, chunked ones among them (section 7.1). `FastCgi`
is the FastCGI client, judged by a reader and a record stream written from the FastCGI Specification,
sections 3.3, 3.4 and 5.3. `Tokenizer`, `ConfigTypes`, `ConfigGrammar` and `ConfigParser` are the
nginx.conf reader: the grammar is a set of functions on the tokens that are left, the parser is the
cursor-moving code, proved equal to it.
`ConfigLocality`, `ConfigInsertion`, `ConfigLoading`, `ConfigEvents` and `ConfigRootInsertion` hold
the theorems about the grammar. `ConfigWords` says what the words of each directive mean;
`ConfigPrinter` prints a configuration, in every spelling the directives allow, and `ConfigReading`,
`ConfigReadBack` and `ConfigRoundTrip` prove that what is printed loads as what it was printed from.
`ConfigImage` is the converse: what loads is printable, so that the printable values are exactly
those that some text stands for. `ConfigIncludes` spreads them over files; `ConfigFallbacks` has the
words that do not read. `SiteConfig` is the site configuration writer and `Router` the selection of
a server and a location.

**State machines.** `ScanDetector` (windows, blocks, garbage collection, reports; `ScanLimits` has
the exact conditions for the program's own score, `ScanCounts` and `ScanVerdicts` say what is
counted and when it is refused), `Upstream` (peers, connection and failure counters, down timers,
health checks; `UpstreamPicks` shows how the hash and the random policy share out), `LimitReq`
(token buckets) and `Registry` (three indexes over one set of accounts) are classes whose methods
are proved equal to functions on values; the theorems are about all runs of those functions.

**Arithmetic.** `Latency` (the log2 histogram and its percentiles), `RoundRobin` (weighted slots)
and `Calendar` (Unix time to the access log's time stamp, and back).

`Common` and `Ascii` hold byte types and text helpers.

Modelling choices: floating point is modelled over real numbers; every call that reads the clock
takes the reading as an argument, and runs have non-decreasing clocks; what a task does between two
waits is one step; fixed-width counters and sums wrap where the program's do in an optimised build
(`% 0x1_0000_0000` and so on), save the 64-bit per-window counts of the scan detector; regular
expressions, URLs, socket addresses, glob expansion, file contents and float parsing are functions
in `ConfigTypes.Env`; a socket is a sequence of octets, and a peer's writes arrive in arbitrary
pieces.

## What the proofs found

Where the code does less than its text or its neighbours suggest, the code is modelled as it is, and
a theorem says exactly when the intended property holds.

- The request body counts towards `MAX_HEADER_BUFFER`, because the header parser measures the whole
  buffer it is given: `HttpHead.RequestReadsBack` holds exactly within that limit.
- The proxy forwards the client's own Content-Length ahead of the one it adds, so the first one sent,
  by the client or else by the configuration, decides how much of the body the next server takes
  (`RequestWriters.ProxyBodyReadsBack`).
- The completeness test adds the announced length to the head's end in 64 bits: a message with a body
  and 2^64 octets or more would count as complete too early (`ProxyResponse.ResponseReadsBack`).
- The end of a chunked response is looked for as the five octets of the last chunk, anywhere. The
  test is right exactly when they stand nowhere before the end (`ProxyFraming.ChunkedCompleteness`);
  a last header line that ends in a zero already cuts the body off (`ProxyFraming.ZeroEndsTheHead`).
  Chunked bodies are passed on with their chunk sizes, but without the header that announces them
  (`ProxyFraming.ChunksAreForwarded`).
- Collection in the scan detector is invisible exactly when `window_secs * 3`, in 64 bits, exceeds
  `window_secs`, or when every request is refused (a threshold of at most one with an error rate of
  zero): otherwise a window of zero, or one whose product wraps below it, shows it
  (`ScanLimits.GcIsInvisible`). A window whose triple fits 64 bits and is not zero hides it whatever
  the score (`ScanDetector.OrdinaryWindowsHideGc`). To callers that act on `is_blocked` alone, as the
  handler does, it is invisible in one case more: without a block time
  (`ScanLimits.GcIsInvisibleToQueries`).
- The once-a-day limit on abuse reports is forgotten with a collected record. It holds in every run
  exactly when records are kept a day beyond their window, or blocks last a day, or every request is
  refused, blocks outlast windows and records are kept for a day (`ScanLimits.ReportLimit`). With
  the default settings it fails, while collection never shows (`ScanLimits.DefaultSettings`).
- Probe paths are searched for in lowered paths, so a listed probe can be found exactly when it is
  written in lower case (`ScanDetector.ProbesThatMatch`); two of them are not
  (`ScanDetector.ProbesInLowerCase`).
- `release` takes a connection off the first peer with the address. Under every policy the counters
  are right in every run exactly when no two peers share an address, except that a second one may
  that is never picked: one without a round-robin slot in a group whose peers never go down
  (`Upstream.CountersNeedDistinctAddrs`).
- A failing `set_nodelay` leaves its connection counted for ever (`Upstream.StrandedForEver`), and
  every group can come to that (`Upstream.StrandedIsReachable`). With distinct addresses a counter
  is the number of waiting and open connections exactly when the number of stranded ones is a
  multiple of 2^32 (`Upstream.CounterIsExact`). With all peers down no connection is tried, although
  the comment in `connect` announces a fail-open.
- Round-robin is fair in every round, also in the one that crosses 2^32 requests, exactly when the
  total weight is below 2^32 and divides it, or is held by one peer (`RoundRobin.FairExactly`). From
  a total of 2^32 on, some peer with a weight is never picked (`RoundRobin.SomeoneStarves`).
- The percentile function takes per-mille values but is given 50, 90 and 99. The value shown as p50,
  p90 or p99 brackets that percentile exactly when the percentile lies in the bucket of the latency
  of a tenth of its rank; with fewer than 20 requests the p50 shown is 0, and right only for a
  median of at most a microsecond (`Latency.ShownPercentile`, `Latency.RankZero`). The comments give
  bucket i the range from 2^(i-1) to 2^i; the code puts the range from 2^i to 2^(i+1) there.
- A `limit_req` without a burst admits nothing (`LimitReq.ZeroBurstAdmitsNothing`).
- Idle addresses are looked for by the tokens they had at their last call. With a burst from 2 to 99
  no eviction ever forgets an address (`LimitReq.WhatEvictionsForget`).
- `auth_basic off` and `hsts off` do not take back what is set already, and the settings of an
  upstream before the directive that sets it are lost without an error
  (`ConfigFallbacks.OffTakesNothingBack`, `ConfigFallbacks.SettingsNeedTheirUpstream`).
- Deleting an account also removes index entries that point to another account with the same domain
  (`Registry.DeleteKeepsComplete`).
- An `events` block is closed by the first brace only if what precedes it is a non-empty run of
  words and of semicolons directly behind a word: `events { }`, `events { ; }` and
  `events { a { } }` are not closed. Then, and at every other mark in the place of a root directive,
  the reading of the file ends without an error and the rest is ignored (`ConfigEvents.EventsGoOn`,
  `ConfigEvents.ReadsToEnd`, `ConfigEvents.UnreadIsIgnored`).
- An unknown directive that fills an empty `events` block closes it, and the file is read on behind
  it. Everywhere else between root directives it goes unnoticed
  (`ConfigRootInsertion.UnknownDirectiveAtRoot`).
- An unknown directive in an `upstream` group goes unnoticed exactly when it has no block: the group
  takes the directives of the block as its own and ends at its brace
  (`ConfigInsertion.UnknownDirectiveInGroup`).
- A users file may repeat an id: the indexes then lead to holders exactly when whoever is replaced
  also loses its key and its domains to later accounts (`Registry.RepeatedIds`).
- The HTTPS redirect block of a site has the same exact name as the site's own block before it, so
  no request for the domain reaches it (`SiteConfig.WrittenSiteIsSelected`).

## Model

| member | source | states |
|---|---|---|
| CrlfScan.FindCrlfScalar | src/simd/mod.rs:144-146 | The first position of CR LF, or that there is none at any position |
| CrlfScan.MoveMaskBit | src/simd/mod.rs:165-167 | The mask of a chunk has bit k exactly where octet k of the chunk is CR |
| CrlfScan.TrailingZerosIsLowestBit | src/simd/mod.rs:170-172 | The trailing zeros of a mask name its lowest set bit: that bit is set and no lower one |
| CrlfScan.ClearLowestBit | src/simd/mod.rs:176 | `mask & (mask - 1)` has every set bit but the lowest, and is smaller |
| CrlfScan.FindCrlfVector | src/simd/mod.rs:152-217 | The chunked scan with its mask loop and scalar tail returns the scalar answer for every buffer and every lane count up to 32 |
| CrlfScan.FindCrlf | src/simd/mod.rs:124-142 | Whatever the processor offers, the answer is the scalar one |
| HttpHead.ParseHeaders | src/simd/mod.rs:79-119 | The header loop with its cursor, count and size total returns the fields of the block up to the blank line, with the errors in the order of the code |
| HttpHead.SpelledReadsBack | src/simd/mod.rs:79-119 | Clean fields in any spelling, each with its own spaces and tabs around its name and its value or none, parse back in order and without the blanks, with the cursor behind the blank line, exactly when count, sizes and total are in bounds |
| HttpHead.FieldsReadBack | src/simd/mod.rs:79-119 | Rendered clean fields parse back in order, with the cursor behind the blank line, exactly when count, sizes and total are in bounds |
| HttpHead.AcceptedFieldsAreClean | src/simd/mod.rs:79-119 | Whatever the parser accepts has colon-free names, trimmed values without CRLF, and is within the limits |
| HttpHead.AcceptedFieldsRenderAgain | src/simd/mod.rs:79-119 | Rendering an accepted block gives a block that is accepted with the same fields |
| HttpHead.RequestLineReadsBack | src/simd/mod.rs:47-77 | A rendered request line parses back to method, URI and version, exactly when method and URI are short enough |
| HttpHead.RequestReadsBack | src/server/handler.rs:86-116 | A rendered request parses to the same method, URI and header list, and the rest is exactly the body, if and only if it is within the limits; otherwise it is an error |
| HttpHead.SpelledRequestReadsBack | src/server/handler.rs:86-116 | A request of any version and in any spelling of its fields parses to its method, URI, version and header list, and the rest is exactly the body, if and only if it is within the limits |
| Ascii.NumbersRead | src/server/handler.rs:119-121 | The texts that are numbers are exactly those of a plus sign or none, any zeros and the digits, below the bound of the type |
| Ascii.LowersTheAlphabet | src/server/handler.rs:642-646 | Names are compared with the 26 letters folded and nothing else |
| HttpHead.BodyReadsBack | src/server/handler.rs:118-134 | The body slice is the body sent exactly when the first Content-Length announces at least its length |
| RequestWriters.BuildProxyRequest | src/proxy/mod.rs:188-230 | The octets pushed are the rendering of the request line, the forwarded fields, the proxy's own fields and the body |
| RequestWriters.ProxyRequestReadsBack | src/proxy/mod.rs:188-230 | A request the proxy writes parses back to its method, path, emitted header list and body, exactly within the limits |
| RequestWriters.ProxyBodyLength | src/proxy/mod.rs:206-225 | The first Content-Length of a proxied request is the client's own, else one from the configuration, and only then the length of the body |
| RequestWriters.ProxyBodyReadsBack | src/server/handler.rs:118-134 | Dispatch recovers the body of a request the proxy wrote exactly when it is empty, or neither client nor configuration sent a Content-Length, or the first one sent covers it |
| RequestWriters.BridgeRequest | src/http2/mod.rs:42-97 | The octets pushed by the HTTP/2 bridge are the rendering of its request |
| RequestWriters.BridgeRequestReadsBack | src/http2/mod.rs:63-97 | A request the bridge writes parses back to its method, URI, emitted header list and body, exactly within the limits |
| RequestWriters.BridgeBodyLength | src/http2/mod.rs:75-93 | The bridge's Content-Length announces the body unless the client's own headers already had one, which then decides |
| ForwardedHeaders.WhatTheServerReads | src/proxy/mod.rs:188-230 | For every header name, the values the next server reads of a proxied request, in order: host, the client's unless the name is hop-by-hop, the configured ones, the forwarding chain if neither replaced nor empty, the length and keep-alive |
| ForwardedHeaders.WhatDispatchReads | src/http2/mod.rs:63-97 | For every header name, the values dispatch reads of a bridged HTTP/2 request: the authority, the client's unless the name is a pseudo-header or means nothing in HTTP/2 or the value is no text, and the length of a body |
| ForwardedHeaders.WhatTheClientReads | src/proxy/mod.rs:289-300 | For every header name, the values that are left of an upstream response: all, in order, or none for the five names that stay between proxy and upstream |
| ProxyResponse.CompleteIsMonotone | src/proxy/mod.rs:234-260 | A complete buffer stays complete when octets are appended |
| ProxyResponse.ReadResponse | src/proxy/mod.rs:146-155 | The read loop appends arrivals until the buffer is complete, over the cap, or the peer is done |
| ProxyResponse.ParseHeaderLines | src/proxy/mod.rs:289-300 | The loop over header lines returns the fields of the lines with a colon that are not hop-by-hop, in order |
| ProxyResponse.FormatResponse | src/server/handler.rs:584-599 | The octets pushed are the status line, the server's field, the given fields, the connection field and the body |
| ProxyResponse.StatusReadsBack | src/proxy/mod.rs:283-287 | The status line of every status reads back to its number and hides no line end |
| ProxyResponse.HeadEnds | src/proxy/mod.rs:262-264 | The header end of joined lines is found where they stop, not earlier |
| ProxyResponse.LinesOfJoined | src/proxy/mod.rs:266-273 | Splitting joined lines gives the lines |
| ProxyResponse.PrefixCompleteness | src/proxy/mod.rs:234-248 | A prefix of a message with an announced length is complete exactly when it holds the head and as many octets as the whole has, modulo 2^64 |
| ProxyResponse.WholeCompleteness | src/proxy/mod.rs:234-248 | No proper prefix of a message is complete, and the whole is, exactly when it has fewer than 2^64 octets or no body |
| ProxyResponse.ResponseReadsBack | src/proxy/mod.rs:234-304 | A written response parses to its status, its headers less the hop-by-hop ones in order, and its body; it is complete exactly at its last octet if and only if it has fewer than 2^64 octets or no body |
| ProxyResponse.MessageReadsBack | src/proxy/mod.rs:234-304 | A response of any origin, its fields in any spelling, parses to the number in its status line, its fields without blanks less the hop-by-hop ones in order, and its body; it is complete exactly at its last octet if and only if it has fewer than 2^64 octets or no body |
| ProxyResponse.ReadsTheMessage | src/proxy/mod.rs:146-155 | However the message is split into reads, the loop stops exactly when its last octet has arrived |
| ProxyResponse.ResponseRoundTrip | src/proxy/mod.rs:146-157 | Writer, any fragmentation, read loop and parser together return the response |
| ProxyResponse.MessageRoundTrip | src/proxy/mod.rs:146-157 | A response of any origin, in any fragmentation, comes out of read loop and parser as its status, fields and body |
| ProxyFraming.LoopStopsFirst | src/proxy/mod.rs:146-155 | The read loop has buffered exactly what came up to the first place where the input ends, the response is complete, or more than 64 MiB have been read |
| ProxyFraming.ChunkedCompleteness | src/proxy/mod.rs:250-256 | A chunked response, however spelled and chunked, is complete exactly at its last octet if and only if the octets of the last chunk stand nowhere before in the message |
| ProxyFraming.ZeroEndsTheHead | src/proxy/mod.rs:250-256 | A chunked response whose last header line ends in a zero is taken for complete without its body |
| ProxyFraming.LineEndStartsAChunk | src/proxy/mod.rs:250-256 | A chunk whose size ends in a zero and whose data starts with a line end holds the octets of the last chunk |
| ProxyFraming.ChunksAreForwarded | src/proxy/mod.rs:289-304 | A chunked body is passed on as it is, which is never its data, without the header that says so |
| ProxyFraming.UnframedNeverCompletes | src/proxy/mod.rs:258-259 | A response with neither a length nor chunks is complete at no octet |
| ProxyFraming.StatusIsTheSecondWord | src/proxy/mod.rs:283-285 | The status is the second word of the status line if that is a 16-bit number, and 502 otherwise |
| FastCgi.MakeRecord | src/fastcgi/mod.rs:150-163 | A record is its eight-octet header and the content, with the length split over two octets |
| FastCgi.EncodeLength | src/fastcgi/mod.rs:193-202 | One octet below 128, otherwise four octets with the high bit set |
| FastCgi.EncodeParams | src/fastcgi/mod.rs:182-191 | The pairs of the map, each once, in some order |
| FastCgi.WriteStream | src/fastcgi/mod.rs:90-103 | The chunk loop writes records of at most 65000 octets and the closing empty record |
| FastCgi.WriteRequest | src/fastcgi/mod.rs:87-103 | Everything sent before reading is the encoding of the request, and a specification reader recovers it exactly when every length is below 2^31 |
| FastCgi.StreamReadsBack | src/fastcgi/mod.rs:90-103 | A specification reader of a stream returns the data and stops behind the empty record, whatever follows |
| FastCgi.LengthReadsBack | src/fastcgi/mod.rs:193-202 | A length field reads back to the low 31 bits of the length |
| FastCgi.PairsReadBack | src/fastcgi/mod.rs:182-202 | The encoded pairs read back in order exactly when every length is below 2^31 |
| FastCgi.RequestReadsBack | src/fastcgi/mod.rs:87-103 | The request, its parameters and body, is recovered from the octets exactly when every length is below 2^31 |
| FastCgi.ReadOneRecord | src/fastcgi/mod.rs:165-178 | One record at the cursor: header, content and as much padding as there is |
| FastCgi.ReadStdout | src/fastcgi/mod.rs:105-134 | The loop returns the STDOUT contents of the records up to the first END_REQUEST, and an error when the input ends before |
| FastCgi.ReadLoopExact | src/fastcgi/mod.rs:105-134 | The loop returns an output exactly for the inputs that are whole records, an END_REQUEST and anything; the output is their STDOUT contents in order |
| Tokenizer.SkipLine | src/config/parser.rs:53-54 | A comment ends behind the next newline |
| Tokenizer.ReadQuoted | src/config/parser.rs:58-72 | A quoted word with its escapes, ended by its quote, a raw newline or the end |
| Tokenizer.ReadBare | src/config/parser.rs:73-85 | A bare word is the longest run without blanks, marks or a hash sign |
| Tokenizer.Tokenize | src/config/parser.rs:46-89 | The cursor loop returns the tokens of the text |
| Tokenizer.TokenizerInvertsPrint | src/config/parser.rs:46-89 | Any pieces, quoted words with escapes, bare words, marks, blanks and comments, tokenize to their tokens in order |
| Tokenizer.EveryTokenSequencePrints | src/config/parser.rs:46-89 | Every token sequence is the tokens of its printed text |
| Tokenizer.EndOfTextCloses | src/config/parser.rs:53-72 | The end of the text closes a comment and a quoted word, also behind a backslash |
| ConfigParser.CollectArgs | src/config/parser.rs:119-126 | The arguments are the words at the cursor, which stops at the first other token |
| ConfigParser.ReadArgs | src/config/parser.rs:97-109 | The words of a simple directive and its semicolon, or an error |
| ConfigParser.SkipOpenBlock | src/config/parser.rs:129-139 | The cursor moves behind the brace that closes the open block, or to the end |
| ConfigParser.SkipDirective | src/config/parser.rs:559-568 | An unknown directive is skipped with its words, and its semicolon or block |
| ConfigParser.ParseLocationAt | src/config/parser.rs:850-1076 | The location parser returns what the grammar says, or its error |
| ConfigParser.ParseServerAt | src/config/parser.rs:576-792 | The server parser returns what the grammar says, ends at most two past the end and holds at most 1024 locations |
| ConfigParser.ParseGroupAt | src/config/parser.rs:434-514 | The upstream group parser returns what the grammar says |
| ConfigParser.ScanServersIn | src/config/parser.rs:536-557 | The scan of an included file finds its server blocks, up to the limit |
| ConfigParser.ParseHttpAt | src/config/parser.rs:326-572 | The http parser returns what the grammar says, ends at most three past the end and holds at most 256 servers |
| ConfigParser.EventsAt | src/config/parser.rs:194-214 | The events loop returns what the grammar says |
| ConfigParser.ParseRoot | src/config/parser.rs:143-294 | The root parser terminates for every file graph, returns what the grammar says, ends at most three past the token count, and reaches the end exactly when no token is out of place between the root directives |
| ConfigParser.MergeEdit | src/config/parser.rs:301-322 | An include parses every matched file one level deeper and appends its servers, or is an error at the depth limit |
| ConfigParser.Load | src/config/parser.rs:28-34 | Loading a file returns what the grammar says of the file and everything it includes |
| ConfigWords.ListenReads | src/config/parser.rs:794-825 | For every list of words: TLS exactly with ssl among them, HTTP/2 exactly with http2, default server exactly with default_server, and the address is the last word that is no flag |
| ConfigWords.PatternReads | src/config/parser.rs:1078-1105 | The words before a location are a pattern exactly when they are its modifier and its text, and its text is allowed |
| ConfigWords.NumberReads | src/config/parser.rs:296-299 | The words that are a number, and which one |
| ConfigWords.SizeReads | src/config/parser.rs:1209-1221 | A size is a number with one unit letter in either case or none, between blanks; its value wraps at 64 bits |
| ConfigWords.LimitReads | src/config/parser.rs:1223-1236 | For every list of words with a zone: the first zone, the first burst or zero, and no delay exactly with nodelay among them |
| ConfigWords.NoZoneNoLimit | src/config/parser.rs:1223-1236 | Without a zone there is no limit |
| ConfigWords.ZoneReads | src/config/parser.rs:415-433 | The first zone up to a colon with the first rate, or nothing if the rate does not read |
| ConfigWords.RateReads | src/limit_req/mod.rs:86-94 | A rate is per second, or a sixtieth of it per minute |
| ConfigWords.CodesPassOver | src/config/parser.rs:690-712 | Words that are no 16-bit numbers are passed over among the codes of an error page, wherever they stand |
| ConfigReadBack.LocationLinesLead | src/config/parser.rs:850-1054 | Whatever directives a location has already read, printed ones override what they set and add to its lists |
| ConfigReadBack.LocationReadsBack | src/config/parser.rs:850-1105 | Every printable location is read back from its printed directives, in every style |
| ConfigReadBack.ServerLinesLead | src/config/parser.rs:576-792 | Whatever directives a server has already read, printed ones override what they set and add to its lists |
| ConfigReadBack.ServerReadsBack | src/config/parser.rs:576-792 | Every printable server, with all its locations, is read back from its printed directives |
| ConfigReadBack.GroupReadsBack | src/config/parser.rs:434-514 | Every printable upstream group, with its peers, weights, policy, time-outs and health check, is read back |
| ConfigReadBack.HttpReadsBack | src/config/parser.rs:326-572 | Every printable http block of at most 256 servers is read back |
| ConfigRoundTrip.PrintedConfigLoads | src/config/parser.rs:28-34 | Any text of a printable configuration, in every style, layout and quoting, loads as that configuration at every include depth |
| ConfigRoundTrip.EveryConfigPrints | src/config/parser.rs:46-89 | Every configuration has such a text in every style |
| ConfigIncludes.IncludedServersAreAdded | src/config/parser.rs:525-557 | Files of printed server blocks that an http block includes add their servers, file by file and block by block, within the 256 |
| ConfigIncludes.IncludeLeads | src/config/parser.rs:525-557 | The include directive of an http block reads as one directive that appends the servers of all its files and changes nothing else, whatever follows |
| ConfigIncludes.IncludedConfigsAreAdded | src/config/parser.rs:301-322 | A root include takes over the servers of the included configurations, in order, and nothing else |
| ConfigIncludes.SplitConfigLoads | src/config/parser.rs:28-34 | A printed configuration that ends in an include loads as itself with the servers of the included configurations behind its own, however many |
| ConfigImage.LocationsThereAre | src/config/parser.rs:850-1076 | The locations that some tokens stand for are exactly the printable ones |
| ConfigImage.ServersThereAre | src/config/parser.rs:576-792 | So are the servers |
| ConfigImage.GroupsThereAre | src/config/parser.rs:434-514 | So are the upstream groups |
| ConfigImage.HttpBlocksThereAre | src/config/parser.rs:326-572 | So are the http blocks, with at most 256 servers |
| ConfigImage.ConfigsThereAre | src/config/parser.rs:143-294 | So are the configurations of texts that include no others at the root, with at most 256 servers |
| ConfigImage.LoadedIsPrintable | src/config/parser.rs:28-34 | Every configuration that loads, through whatever includes, is printable |
| ConfigFallbacks.LocationErrors | src/config/parser.rs:850-1054 | A location's directive with its words is an error exactly for an unsafe root, an upstream that is none, or a size or status that is no number |
| ConfigFallbacks.ServerErrors | src/config/parser.rs:576-792 | The same for the directives of a server, and for a listen without an address |
| ConfigFallbacks.HttpErrors | src/config/parser.rs:326-572 | The same for the values of an http block: sizes and times |
| ConfigFallbacks.GroupFallbacks | src/config/parser.rs:467-483 | In an upstream group, a number that does not read leaves what a group without the directive has |
| ConfigFallbacks.WeightFallback | src/config/parser.rs:460-465 | A peer's weight is 1 when the last one given does not read |
| ConfigFallbacks.HealthFallbacks | src/config/parser.rs:484-495 | A health check takes the last interval and time-out named; one that does not read is that of a new group, and what is not named stays |
| ConfigFallbacks.ScanFallbacks | src/config/parser.rs:233-268 | Scan settings that do not read are those of a file without them |
| ConfigFallbacks.TimeFallbacks | src/config/parser.rs:938-962 | A read time-out that does not read is the one the upstream directive set |
| ConfigFallbacks.PartsAreEnough | src/config/parser.rs:684-735 | Certificate and key, in either order, make a server with TLS 1.2, and a user file alone one with the realm Restricted |
| ConfigFallbacks.SettingsNeedTheirUpstream | src/config/parser.rs:921-980 | The settings of an upstream do nothing before the directive that sets it |
| ConfigFallbacks.OffTakesNothingBack | src/config/parser.rs:677-767 | off takes back neither authentication nor HSTS, and an error page without codes is none |
| ConfigFallbacks.EmptyFile | src/config/parser.rs:143-161 | The configuration of an empty file |
| ConfigFallbacks.EmptyBlocks | src/config/parser.rs:434-514 | The server, the location and the upstream group of an empty block |
| ConfigLocality.SkipsUnknown | src/config/parser.rs:129-139 | Skipping takes exactly the tokens of an unknown directive with balanced braces |
| ConfigLocality.BlockLocal | src/config/parser.rs:576-792 | A closed block depends on the tokens up to its closing brace only |
| ConfigLocality.LocationIsLocal | src/config/parser.rs:850-1076 | Every directive of a location depends on what it consumes and the token behind it |
| ConfigLocality.ServerIsLocal | src/config/parser.rs:576-792 | Every directive of a server block does |
| ConfigLocality.HttpIsLocal | src/config/parser.rs:326-572 | Every directive of an http block does |
| ConfigLocality.InsertionUnnoticed | src/config/parser.rs:1045-1054 | In any block loop of local directives, tokens that are skipped leave the result the same wherever a directive may start |
| ConfigInsertion.SkipUnknownAbsorbs | src/config/parser.rs:559-568 | A directive skipped before an inserted one either keeps its extent or swallows the inserted one whole |
| ConfigInsertion.UnknownDirectiveUnnoticed | src/config/parser.rs:559-568 | An unknown directive at any boundary of an http block, its servers or their locations leaves the parsed block the same |
| ConfigInsertion.UnknownDirectiveInIncluded | src/config/parser.rs:536-557 | An unknown directive inside a server block of an included file, or inside one of its locations, leaves the servers that the scan of the file adds, or its error, the same |
| ConfigLoading.UnknownDirectiveSameConfig | src/config/parser.rs:779-788 | The same for a whole file: the loaded configuration, or the error, is the same |
| ConfigLoading.HttpReaches | src/config/parser.rs:326-572 | An http block ends at most three positions past the last token |
| ConfigLoading.ServerHoldsLimit | src/config/parser.rs:744-752 | No server block holds more than 1024 locations |
| ConfigLoading.HttpHoldsLimits | src/config/parser.rs:326-572 | No http block holds more than 256 servers, includes counted, nor a server of it more than 1024 locations |
| ConfigLoading.ChainsEndInTime | src/config/parser.rs:301-322 | Where loading succeeds, no chain of root-level includes passes the depth limit |
| ConfigLoading.CyclesAreErrors | src/config/parser.rs:301-322 | Loading a file of a cyclic include graph ends in an error |
| ConfigEvents.EventsEnd | src/config/parser.rs:194-214 | An events block read without an error takes the longest front of words and of semicolons directly behind a word, and the closing brace behind a non-empty one |
| ConfigEvents.EventsGoOn | src/config/parser.rs:194-214 | For every body: behind the block the root loop goes on exactly when the block closes or the file is at its end; otherwise everything from the first token outside the run is left unread |
| ConfigEvents.ReadsToEnd | src/config/parser.rs:163-293 | A file without an error in a directive is read to its end exactly when every events block closes, or runs to the end, and no mark stands in the place of a root directive |
| ConfigEvents.UnreadIsIgnored | src/config/parser.rs:290 | What is left unread is the end of the file and does not count: every file with the same tokens up to the first unread one gives the same configuration or error |
| ConfigRootInsertion.InsertIntoEvents | src/config/parser.rs:198-213 | Where the loop of an events block stopped without closing, an unknown directive leaves the connections the same, and the loop stops again unless the directive fills an empty block |
| ConfigRootInsertion.UnknownDirectiveAtRoot | src/config/parser.rs:163-293 | An unknown directive at any head of the root loop goes unnoticed exactly when it has a block, or does not fill an empty events block, or loading had failed before, or reading on behind that block adds nothing; filling it makes the loop read on |
| ConfigInsertion.UnknownDirectiveInGroup | src/config/parser.rs:447-507 | In an upstream group that parses, an unknown directive at any head of the loop goes unnoticed exactly when it has no block |
| SiteConfig.ServerTokenizes | src/api/sites.rs:458-482 | The text of a written server block has the tokens of its lines and locations |
| SiteConfig.ServerScans | src/config/parser.rs:536-557 | The include loop takes one written block whole and goes on behind it |
| SiteConfig.RunSite | src/api/sites.rs:458-482 | The directives of a site's block build the site's server: name, root, index and locations of its type |
| SiteConfig.RunRedirect | src/api/sites.rs:484-488 | The directives of the redirect block build a server with the domain's name and a 301 to https |
| SiteConfig.GeneratedConfigReadsBack | src/api/sites.rs:447-492 | The include loop over the generated text adds the site's server, and with SSL the redirect server, and nothing else |
| SiteConfig.WrittenSiteIsSelected | src/router/mod.rs:17-57 | A Host of the domain in any case, with or without a port, selects the site's block exactly when no earlier block lists the same name |
| Router.SelectServer | src/router/mod.rs:17-57 | The scans return the best fit, exact before wildcard before suffix before catch-all, and the first among equals |
| Router.OrderOfNames | src/router/mod.rs:17-57 | A server with the plain name wins, else one with a wildcard, else one with a suffix, else one that catches all, else the first; of several of a kind the first |
| Router.NamesStandFor | src/config/types.rs:126-142 | In any case of letters: a plain name stands for itself, *.d for every host that ends in a dot and d, .d for these and for d itself |
| Router.PortIsDropped | src/router/mod.rs:17-19 | The host is what stands before the port, without the blanks around it |
| Router.SelectLocation | src/router/mod.rs:70-119 | One pass with its early exit returns the location that the declarative rule selects |
| Router.RuleInWords | src/router/mod.rs:59-119 | An exact match wins, else the longest `^~` prefix, else the first matching regular expression, else the longest prefix; a named location never does |
| Router.SelectionIsUnique | src/router/mod.rs:63-69 | The declarative rule allows one answer |
| Router.ReorderingIsHarmless | src/router/mod.rs:63-119 | Reordering locations, regular expressions kept in order and other patterns distinct, selects the same location for every path |
| ScanDetector.Update | src/scan_detector/mod.rs:152-202 | The block check, the counting and the verdict on one record |
| ScanDetector.ScanDetector.Record | src/scan_detector/mod.rs:142-203 | A request changes the record of its address alone, as a visit says, and nothing when detection is off or the address is whitelisted |
| ScanDetector.ScanDetector.IsBlocked | src/scan_detector/mod.rs:206-213 | True exactly while a block of the address runs |
| ScanDetector.ScanDetector.Gc | src/scan_detector/mod.rs:215-223 | Keeps exactly the records with a running block or a young window |
| ScanDetector.SameAnswers | src/scan_detector/mod.rs:142-223 | For every score function, run and pair of trackers that agree so far, removing all collections changes no answer when three windows in 64 bits exceed one |
| ScanDetector.OrdinaryWindowsHideGc | src/scan_detector/mod.rs:215-223 | A window that is not zero and whose triple fits 64 bits hides collection, whatever the score |
| ScanLimits.GcIsInvisible | src/scan_detector/mod.rs:142-223 | With the program's score, for every threshold and real error rate: no run tells whether records are collected, exactly when three windows in 64 bits exceed one or every request is refused |
| ScanLimits.GcIsInvisibleToQueries | src/scan_detector/mod.rs:205-223 | The same for the answers of `is_blocked` alone, where a block time of zero hides collection as well |
| ScanDetector.BlockHolds | src/scan_detector/mod.rs:153-157 | A set block answers "refused" to everything before it expires, whatever happens between |
| ScanDetector.RefusalLasts | src/scan_detector/mod.rs:174-201 | A first refusal lasts for the whole block time in every run; without a block time the address is not blocked afterwards |
| ScanDetector.ReportsADayApart | src/scan_detector/mod.rs:183-197 | Reports of one address are at least a day apart in runs without collection, and in all runs when records are kept long enough |
| ScanLimits.ReportLimit | src/scan_detector/mod.rs:183-223 | With the program's score, for every threshold and real error rate: reports of an address are at least a day apart in every run exactly when records outlive their window by a day, or blocks last a day, or every request is refused, blocks outlast windows and records are kept for a day |
| ScanLimits.DefaultSettings | src/main.rs:188-197 | A detector started with the default settings and reports on: collection never shows, and some run reports an address twice within a day |
| ScanDetector.WhatTriggers | src/scan_detector/mod.rs:102-116 | No score passes 100, and below the error rate only full volume with three probed paths reaches the trigger |
| ScanDetector.ProbesThatMatch | src/scan_detector/mod.rs:166-172 | A listed probe is found in some path exactly when it is written in lower case |
| ScanDetector.ProbesInLowerCase | src/scan_detector/mod.rs:33-48 | All listed probes are written in lower case but two |
| ScanCounts.RecordCounts | src/scan_detector/mod.rs:142-172 | In every run of a new detector a record holds, of the requests noticed since its window began, how many they are, how many were answered 400 to 499, and which listed texts their lowered paths contain |
| ScanCounts.AllAreHeard | src/scan_detector/mod.rs:152-157 | While nothing about an address was refused, or without a block time, all its requests are noticed |
| ScanCounts.VerdictOnCounts | src/scan_detector/mod.rs:174-201 | A noticed request is refused exactly when the counts of its window with it reach the trigger |
| ScanCounts.OnlyErrorsAreRefused | src/scan_detector/mod.rs:102-116 | An address answered with nothing but 4xx is refused once its window has a volume score of 20, for every error rate in (0, 0.75] |
| ScanVerdicts.ScoreIsMost | src/scan_detector/mod.rs:102-116 | The score is the most that the points of a window add up to: v with v * threshold at most 30 times the requests, e with e * rate * requests at most 30 times the errors and none below the rate, ten a probe, capped at 30, 40 and 30 |
| ScanVerdicts.RefusedAtSixty | src/scan_detector/mod.rs:102-201 | In every run a noticed request is refused exactly when its window earns sixty points with it |
| ScanVerdicts.WhoCanBeRefused | src/scan_detector/mod.rs:142-145 | Some run refuses an address exactly when detection is on and it is not on the white list, whatever the thresholds |
| RoundRobin.Pick | src/upstream/mod.rs:103-115 | For any weights, the cumulative walk returns the first peer whose running sum, in 32 bits, passes the slot, and the first peer when none does |
| RoundRobin.WalkFindsOwner | src/upstream/mod.rs:103-115 | While the weights add up to less than 2^32, that is the owner of the counter's slot |
| RoundRobin.OneOwner | src/upstream/mod.rs:107-114 | A slot has one owner |
| RoundRobin.FairWithinEpoch | src/upstream/mod.rs:103-115 | While the weights add up to less than 2^32 and the counter stays between two multiples of it, a full round picks each peer exactly its weight, n picks at least that a full round and at most a started round, and weight zero never |
| RoundRobin.FairAcrossTheWrap | src/upstream/mod.rs:104-107 | A total weight below 2^32 that divides it is fair in every round |
| RoundRobin.SomeoneStarves | src/upstream/mod.rs:105-114 | When 32-bit weights add up to 2^32 or more, some peer with a weight is picked at no counter value |
| RoundRobin.FairExactly | src/upstream/mod.rs:103-115 | For all 32-bit weights that are not all zero: every round of the counter, wrapping included, serves each peer its weight exactly when the sum is below 2^32 and divides it or is held by one peer |
| Upstream.UpstreamGroup.Begin | src/upstream/mod.rs:84-136 | Before its wait `connect` counts the policy's choice among the peers that are up, or changes nothing when all are down |
| Upstream.Choose | src/upstream/mod.rs:102-133 | The place in the available list that the policy chooses, for any weights |
| Upstream.FewestConns | src/upstream/mod.rs:116-120 | The first peer with the fewest connections |
| UpstreamPicks.SmallHashes | src/upstream/mod.rs:121-128 | The smallest hashes lead to the available peers in their order, the hash of a client without an address to the first |
| UpstreamPicks.HashesRepeat | src/upstream/mod.rs:121-128 | Hashes that differ by the number of available peers lead to the same peer |
| UpstreamPicks.HashesShare | src/upstream/mod.rs:121-128 | Of any n consecutive hashes, n peers being available, exactly one leads to each |
| UpstreamPicks.HashesOfClients | src/upstream/mod.rs:218-224 | No two IPv4 addresses have the same hash, and every 32-bit number is the hash of one |
| UpstreamPicks.ShiftedBits | src/upstream/mod.rs:129-224 | The spread of a clock reading is its bits against those of its quotient by 2^17, the hash of an IPv4 address its bits against those of its quotient by 2^16 |
| UpstreamPicks.ClientsShare | src/upstream/mod.rs:121-128 | Of the clients whose hashes are n consecutive numbers exactly one is led to each of the n available peers |
| UpstreamPicks.RandomRepeats | src/upstream/mod.rs:129-132 | While the same peers are up, the random policy picks the same peer at two moments exactly when their spreads leave the same remainder |
| UpstreamPicks.SpreadsOfClocks | src/upstream/mod.rs:129-132 | No two 64-bit clock readings have the same spread, and every 64-bit number is the spread of one |
| UpstreamPicks.MomentsShare | src/upstream/mod.rs:129-132 | Of the moments whose spreads are n consecutive numbers exactly one leads to each of n peers that are up |
| Upstream.UpstreamGroup.Opened | src/upstream/mod.rs:139-143 | An open connection resets the failures of its peer |
| Upstream.UpstreamGroup.NotOpened | src/upstream/mod.rs:144-148 | A failed one is uncounted and counted as a failure at the time `connect` began |
| Upstream.UpstreamGroup.Fail | src/upstream/mod.rs:158-165 | The failure counter and, from max_fails on, the down timer |
| Upstream.UpstreamGroup.Release | src/upstream/mod.rs:152-156 | Uncounts a connection of the first peer with the address |
| Upstream.UpstreamGroup.Probe | src/upstream/mod.rs:178-190 | A good probe of a downed peer clears it; a bad one is a failure |
| Upstream.RunConserves | src/upstream/mod.rs:84-193 | With distinct addresses, in every run each counter is the number of its waiting, open and stranded connections |
| Upstream.ReleaseConserves | src/upstream/mod.rs:152-156 | A release keeps the counters right exactly when its address leads to the connection's own peer |
| Upstream.NoUnderflow | src/upstream/mod.rs:144-156 | No counter is taken below zero while fewer than 2^32 connections are held |
| Upstream.StrandedForEver | src/upstream/mod.rs:137-143 | A connection whose set_nodelay failed stays counted in every later state of every run |
| Upstream.CounterIsExact | src/upstream/mod.rs:84-193 | In every run of a group with distinct addresses, a peer's counter is the number of its waiting and open connections exactly when its stranded ones are a multiple of 2^32 |
| Upstream.StrandedIsReachable | src/upstream/mod.rs:137-143 | Every new group with a peer, under any policy, has a run that leaves a counter at one with no connection waiting or open |
| Upstream.PickableByWeight | src/upstream/mod.rs:103-115 | While the weights add up to less than 2^32, some counter value leads round-robin to a peer exactly when the peer has a weight, or is the first and no peer has one |
| Upstream.CountersNeedDistinctAddrs | src/server/handler.rs:423-444 | Under every policy, counters stay right in every run, with or without health checks, exactly when addresses are distinct up to peers that are never picked |
| Upstream.EveryRun | src/upstream/mod.rs:84-193 | Every run of a new group keeps the counters and the failure records |
| Upstream.DownOnlyAfterMaxFails | src/upstream/mod.rs:158-165 | A failure sets the timer exactly when the failures since the last reset, counted in 32 bits, are at least max_fails and there is a fail timeout; a good probe clears it and no other step touches it |
| Upstream.WhenAPeerIsPicked | src/upstream/mod.rs:91-100 | A peer is not picked while its timer runs, and is available again at most fail_timeout after its latest failure |
| Latency.BucketGrows | src/stats/mod.rs:80-84 | Longer latencies are never in lower buckets |
| Latency.Stats.RecordRequest | src/stats/mod.rs:46-62 | One more request, in the bucket of its latency, with byte and status counts |
| Latency.Stats.LatencyPercentiles | src/stats/mod.rs:66-77 | Four percentile values of the histogram, zero when it is empty |
| Latency.PercentileUs | src/stats/mod.rs:86-97 | The loop returns the midpoint of the first bucket at which the running sum reaches the target |
| Latency.BucketsSumToTotal | src/stats/mod.rs:46-62 | The buckets add up to the number of requests |
| Latency.PercentileBracketsKth | src/stats/mod.rs:86-97 | For every per-mille value of rank k at least 1, the value v brackets the exact k-th smallest latency s: 2v <= s < 4v inside, 0 at the low end, 2^30 at the high end |
| Latency.LoopAlwaysReturns | src/stats/mod.rs:86-97 | The value behind the loop is never used |
| Latency.PercentilesGrow | src/stats/mod.rs:86-97 | Higher percentiles are never lower |
| Latency.RankZero | src/stats/mod.rs:86-97 | A percentile of rank zero is zero, whatever the latencies |
| Latency.BracketsExactly | src/stats/mod.rs:86-97 | A percentile value brackets exactly the latencies in the bucket of the one it stands for, or in the first bucket when its rank is zero |
| Latency.ShownPercentile | src/stats/mod.rs:71-74 | For every non-empty histogram and every percent: the value shown brackets the percentile it is named after exactly when that lies in the bucket of the latency of a tenth of its rank, or in the first bucket while that rank is zero |
| LimitReq.LimitReqZone.Allow | src/limit_req/mod.rs:34-53 | Refills, caps, and takes a token if there is one, in the bucket of the address alone |
| LimitReq.LimitReqZone.EvictIdle | src/limit_req/mod.rs:57-63 | Forgets exactly the addresses with 99 percent of the burst |
| LimitReq.WindowBound | src/limit_req/mod.rs:34-63 | From a call to a time T later, in any run, at most burst * (1 + E/100) + rate * T requests of an address are let through, E counting its evictions |
| LimitReq.TokensAreExact | src/limit_req/mod.rs:34-53 | In every run a remembered bucket holds exactly the burst and what the time since its latest full call brought, less one token for each request let through since |
| LimitReq.RefusedWhenUsedUp | src/limit_req/mod.rs:34-63 | With a burst of at least one, a call is refused in any run exactly when its address is remembered and more than burst + rate * T - 1 of its requests were let through since the latest call, T earlier, that found its bucket full |
| LimitReq.BurstIsGranted | src/limit_req/mod.rs:34-63 | A new address, or one silent for burst/rate, has its next burst calls let through, however close together they come and whoever else calls |
| LimitReq.WhatEvictionsForget | src/limit_req/mod.rs:57-63 | Some run forgets an address exactly with a burst of zero or of at least a hundred, or with a burst of one and a rate |
| LimitReq.PatientCallersAreAdmitted | src/limit_req/mod.rs:34-53 | With a burst of at least one, whoever waits 1/rate since its latest call is let through, after any run |
| LimitReq.ZeroBurstAdmitsNothing | src/limit_req/mod.rs:47-53 | A burst of zero admits nothing in any run; a larger one admits the first call |
| LimitReq.AddressesAreIndependent | src/limit_req/mod.rs:34-63 | What an address is granted does not depend on the calls of others |
| Calendar.YearOf | src/server/access_log.rs:173-180 | The year loop leaves the days within the year, and with the total in 32-bit years they add up to it |
| Calendar.MonthOf | src/server/access_log.rs:181-186 | The month loop always finds the month and the days within it |
| Calendar.NamesOfMonths | src/server/access_log.rs:164 | The names of the months, quarter by quarter |
| Calendar.FieldsOf | src/server/access_log.rs:165-187 | Valid fields, whose closed-form Unix time is the given one exactly when its year fits 32 bits |
| Calendar.DatesAreUnique | src/server/access_log.rs:165-187 | A Unix time has one valid date and time of day |
| Calendar.FormatUnixTs | src/server/access_log.rs:161-191 | The printed time stamp reads back to the given time, exactly when its year fits 32 bits |
| Calendar.StampsTellTimesApart | src/server/access_log.rs:189-190 | Equal time stamps come from equal fields and equal times |
| Registry.UserRegistry.Reload | src/multiuser/mod.rs:65-91 | The three maps are those of the file's accounts, inserted in order; unchanged when the file cannot be read |
| Registry.UserRegistry.CreateUser | src/multiuser/mod.rs:112-133 | The account is in the maps even when the file could not be written, which is what the result says |
| Registry.UserRegistry.DeleteUser | src/multiuser/mod.rs:135-145 | Removes the account, its key and all its domains from the maps |
| Registry.UserRegistry.Persist | src/multiuser/mod.rs:147-156 | The file lists the accounts, each once, in some order |
| Registry.UserRegistry.ByApiKey | src/multiuser/mod.rs:93-96 | The account that the key index and the accounts give |
| Registry.UserRegistry.ByDomain | src/multiuser/mod.rs:102-105 | The account that the domain index and the accounts give |
| Registry.EveryRun | src/multiuser/mod.rs:65-156 | In every run of creates, deletes, edits of the file and reloads with unique ids, index entries point to live holders; with keys and domains kept apart, the indexes are complete |
| Registry.CreateIsSeen | src/multiuser/mod.rs:112-133 | A new account is found by its key and all its domains whether the file could be written or not, no other is lost, and an unwritten one is forgotten with the next reload |
| Registry.DeleteIsSeen | src/multiuser/mod.rs:135-145 | A deleted account is found no longer by its key and its domains, no other is lost, and the file is written only if there was one |
| Registry.DeleteKeepsComplete | src/multiuser/mod.rs:135-145 | Deleting keeps the indexes complete exactly when no other account shares the key or a domain |
| Registry.LookupsMatchScan | src/multiuser/mod.rs:93-105 | With unshared keys and domains the lookups find exactly the account a scan finds |
| Registry.PersistThenReload | src/multiuser/mod.rs:65-156 | Persist and reload change no index, whatever the order of writing, exactly when no key or domain is shared |
| Registry.RepeatedIds | src/multiuser/mod.rs:82-89 | A file, ids repeated or not, loads to index entries that point to live holders exactly when every account replaced by a later one of its id loses its key and domains to later accounts; the indexes are complete in any case |

## Left out

- ConfigParser.Load: errors are modelled without their texts, and warnings are not modelled
- ConfigGrammar: whatever libraries decide (socket addresses, proxy URLs, regular expressions, floats, globs) goes through `Env`; the URL fields of a proxied location are kept as the URL's text
- ConfigInsertion.UnknownDirectiveInIncluded: on the tokens of the included file, and on the servers its scan adds to those of the http block
- ConfigTypes: the trimming of arguments removes ASCII blanks only
- ConfigRoundTrip.PrintedConfigLoads: that no plain number is a socket address, and that the floats of the configuration read back from what they are printed as, are facts about libraries and are conditions of the lemma
- FastCgi.ReadStdout: the input is what arrives in all; how `read_exact` collects its pieces, and the timeouts, are not modelled
- ProxyResponse.ResponseRoundTrip: the connection pool is not modelled
- ProxyFraming.ChunkedCompleteness: chunk extensions and trailers
- ProxyResponse.ReadResponse: header text is ASCII in the round trip, as `format_response` writes it from the server's own strings; trimming and splitting know ASCII blanks only, so a Unicode blank beside a value or in a status line is not modelled
- HttpHead.RequestReadsBack: percent decoding and the URI safety checks between parsing and dispatch
- RequestWriters.BuildProxyRequest: the upstream path rewriting before it
- Upstream.UpstreamGroup.Begin: peers are values in a sequence rather than shared records, so aliasing between groups is not modelled; the hash of the client address is an argument, for IPv6 clients without its computation
- Upstream.EveryRun: the atomic operations between two waits are one step; interleavings inside them are not modelled
- ScanDetector.Score: real arithmetic, not 32-bit floats, so an error rate of negative zero, infinity or not-a-number is not modelled
- LimitReq.WindowBound: real arithmetic, a non-negative rate and one fixed burst per zone
- Latency.PercentileBracketsKth: fewer than 2^64 / 1000 requests, so that the product of total and per-mille does not wrap
- Registry.UserRegistry.Persist: TOML is the identity on the list of accounts, a failed write leaves the file as it was, and an operation on the three maps is one step
- Calendar.FormatUnixTs: times past the 32-bit years wrap as in an optimised build; a debug build stops instead
- Sockets, TLS, ACME, the HTTP/2 library, io_uring, XDP, NUMA pinning, firewall and ICMP commands: foreign effects with little logic of their own
- The response cache, gzip and brotli, dashboards, JSON endpoints and site provisioning on disk
- The CGI response parser, base64, the log ring, the per-second limiter, the bandwidth counter and the rewrite rules: single functions with easier properties than those above
- Clocks that step backwards, cancelled tasks and weak memory orders

# tord, modelled and verified

`tord` is a SOCKS5 front door to Tor. A client connects, negotiates (RFC 1928,
with RFC 1929 for a username), and asks for a CONNECT; the daemon opens an
anonymised stream, tells the client, and splices bytes both ways while counting
them. The username is no credential: it decides which streams may share
circuits. A query tool prints what the daemon reports about itself.

This project models that engine and that printer in Dafny and proves what they
promise, over all inputs, all runs and all schedules.

## How it is laid out

| files | what they model |
|---|---|
| `common`, `utf8`, `decimal`, `address` | wrapping counters and sums; UTF-8, decimal text, address text and `host:port` labels |
| `wire` | what a client may send, as a one-shot reader of all its bytes (`Session`), and everything it may be told (`Transcript`) |
| `encoding` | what a conforming client writes; the reader is its exact inverse |
| `octets`, `hosts` | the same in the very numbers of the RFCs, and host texts read back into the octets on the wire |
| `handler` | `SocksServer::handle` as a state machine with one state for each point where it may be suspended (`Step`, `Run`) |
| `fidelity`, `conduct`, `splice` | the machine against the one-shot reader; chunking, fail-closed, bounds, termination; every byte of a client in order |
| `streams`, `metered`, `tor`, `server` | the same code as objects and methods, statement by statement |
| `daemon` | any number of handlers over the shared counters, registry and isolation map (`Next`, `Exec`) |
| `accounting`, `rows`, `traffic`, `history`, `isolation`, `service` | what holds in every state the daemon can reach |
| `solo`, `arrival`, `crowd` | runs that exist: any way to serve a client alone, one connection more after any run, and enough of them to reuse an id |
| `text`, `json`, `reading`, `keyvalue`, `table`, `scaling` | the renderer of `tord query`, and a reader of JSON text that undoes what it prints |
| `report` | from a client's bytes to its line in `tord query streams` |

The code between two `.await` points runs on one thread and so is one atomic
step. In each step the surroundings choose: which handler moves, how many bytes
arrive or are taken, end of file, errors, Tor's answer, what the splice does
next, and when a task is dropped. A run is any list of such choices.

The handler appears twice because it is proved twice. `Handler` is what
interleaves. `Server` is the source's own sequence of statements, for a client
served alone: `SocksServer.Handle` changes the client, the counters, the
registry and the isolation map in place. Both are proved against the same
`Session` and `Transcript`, and the first refines the second:
`SocksServer.SpawnConnection` takes objects that mirror some run of the daemon to
objects that mirror a longer one, in which one handler more has heard, said and
relayed exactly what this one did.

Taken as given: `read_exact` fills its buffer or fails for good, and `write_all`
writes everything or a prefix (both are proved of loops over polls in
`Metering.Client`); `IsolationToken::new` never repeats a token;
`copy_bidirectional` is any interleaving of polls of the two streams. Counters
wrap modulo 2^64, as `fetch_add` does.

What a reader may not expect of the code, and the model keeps:

* A connection that breaks off inside the target is answered with reply 0x08,
  "address type not supported", since every error of `read_target` is
  (src/socks/server.rs:183-189).
* The indented key/value lines do not determine every reply. Objects are maps
  sorted by key (`serde_json` without `preserve_order`), so an object can only be
  followed by an indented sibling if its own key sorts before one: `{"": {"x":
  null}}` and `{"": {}, "  x": null}` print alike. `KeyValue.HeadsExactly` has the
  exact condition on the keys of objects; keys that start above the space, like
  all that the daemon uses, meet it.
* A line break in a username or a domain name is printed as one, so that a row
  of the table takes several lines (`Table.TableLines`,
  `Report.UsernameBreaksLine`).
* The final `trim_end` of the key/value view takes blanks off the last value
  (`KeyValue.TrimTakesOneBreak`), and prints nothing at all of `{"": ""}`; in the
  table it never does.
* Ids wrap after 2^64 registrations, and one that is still live is then given
  out again: the older handler loses its row (`Crowd.RowsCanBeLost`).
* A row is registered before Tor is asked, so it also covers the wait for Tor,
  not only the splice that the comment at src/streams.rs:3-4 speaks of.
* A field that is present but no string prints as `-` too; the comment at
  src/format.rs:151 only mentions absent and null ones.
* In the key/value view only nested-object headers get a colon, and only keys
  with a value count for the width, although the comment at src/format.rs:59-60
  speaks of `key: value` lines.

## Model

| member | source | states |
|---|---|---|
| Wire.SessionStable | src/socks/server.rs:139-189 | A decision, once the bytes read so far suffice for it, is not changed by anything pipelined behind them |
| Wire.SessionPrefix | src/socks/server.rs:139-189 | The bytes a decision is said to have used are enough to reach it |
| Wire.SessionBounds | src/socks/server.rs:140-189 | On every input at most 1032 bytes are read and at most 14 said, more than 12 only after a username; an undecided input has been read to its end |
| Wire.TranscriptsLegal | src/socks/server.rs:158-212 | Whatever is said is one of finitely many transcripts (a method choice, an auth status, one 10-byte reply, in this order); success is in it if and only if a CONNECT was read and Tor accepted |
| Encoding.SessionReadsClient | src/socks/server.rs:139-189 | For every method list, credentials, address, port and RSV byte, reading the encoding recovers username and destination, consumes exactly the encoding, and leaves any pipelined suffix |
| Encoding.ClientOfSession | src/socks/server.rs:139-189 | Whenever a CONNECT is read, the bytes consumed are the encoding of a valid client, which the lemma constructs |
| Encoding.AcceptsExactlyClients | src/socks/server.rs:139-189 | A stream is asked of Tor if and only if the input starts with the encoding of a valid client |
| Encoding.LongestHandshake | src/socks/server.rs:140-189 | The bound of 1032 bytes is attained |
| Octets.RequestOctets | src/socks/server.rs:32-39 | A request on the wire is 5, 1, RSV and then 1, 3 or 4 by the kind of address, the address (a name behind its length) and the port, high byte first; `GreetingOctets` and `LoginOctets` say likewise what comes before |
| Octets.ClientHears | src/socks/server.rs:158-212 | Any valid client hears 5 0, or 5 2 1 0 if it offered method 2; then 5 0 0 1 and six zeros if and only if Tor accepted, with 1 for the code if Tor declined, and nothing more before |
| Octets.GreetingHears | src/socks/server.rs:140-168 | For any input: a version other than 5 is not answered; method 2 is chosen if offered, else method 0, else 5 255 is all that is said |
| Octets.LoginHears | src/socks/server.rs:230-251 | For any sub-negotiation: 1 0 if and only if it is complete, of version 1 and its username is UTF-8, whatever the password; else nothing |
| Octets.RequestHears | src/socks/server.rs:170-212 | For any request: code 7 for a command other than 1; code 8 for an address kind other than 1, 3 and 4, a name that is not UTF-8, and a target that breaks off; otherwise a CONNECT, and code 0 or 1 as Tor answers |
| Octets.SuccessOctets | src/socks/server.rs:199-211 | For any input, all that is said ends in 5 0 0 1 and six zeros if and only if a CONNECT was read and Tor accepted |
| Hosts.Ipv4ReadsBack | src/socks/server.rs:261-265 | The text of four octets, split at its dots, is their four decimal values in order, without leading zeros |
| Hosts.Ipv6ReadsBack | src/socks/server.rs:266-270 | The text of any sixteen octets reads back as them: hexadecimal groups between colons, zeros for a `::`, and a dotted tail |
| Hosts.MappedReadsBack | src/socks/server.rs:266-270 | An IPv4-mapped address is `::ffff:` and the dotted text of its last four octets |
| Hosts.SegmentsReadBack | src/socks/server.rs:266-270 | In any other, a `::` stands if and only if two adjacent segments are zero, and for the first of the longest runs of zeros |
| Hosts.TargetTells | src/socks/server.rs:256-283 | For any input that holds a target: the host text reads back as the octets on the wire, a name is the text that they encode, the port is in network order, and exactly these bytes are used |
| Utf8.EncodeDecode | src/socks/server.rs:250-276 | Bytes that decode as UTF-8 are the encoding of what they decode to, so no overlong form is taken |
| Utf8.DecodeEncode | src/socks/server.rs:250-276 | Every text survives encoding and decoding |
| Utf8.DecodeInjective | src/socks/server.rs:250-276 | Decoding is a partial injection: equal texts come from equal bytes |
| Utf8.CharsWithinBytes | src/format.rs:70-135 | A text has no more chars than bytes, which is why byte-length widths are wide enough for char padding |
| Utf8.AsciiAsItIs | src/socks/server.rs:250-276 | ASCII names are on the wire as they are |
| Address.UnlabelLabel | src/socks/server.rs:192 | The label of a target is undone by splitting at the last colon and reading the port, whatever the host contains |
| Address.LabelInjective | src/socks/server.rs:192 | Two targets have the same label if and only if host text and port agree |
| Fidelity.RunKeeps | src/socks/server.rs:135-283 | The invariant of every suspension point (what was read, for which field, and what was said) holds after every sequence of events |
| Fidelity.HandlerRefinesReader | src/socks/server.rs:135-283 | After any events, the handler has said a prefix of what the one-shot reader says to the bytes read so far, all of it unless a write is pending or failed; it waits for exactly the bytes that reader misses; it has a username and destination if and only if that reader finds them, and the same; payload flows only after Tor's consent and the whole transcript |
| Conduct.ChunkingIndependence | src/socks/server.rs:140-189 | However the input is split into deliveries, the handler's decision, destination, username and consumed byte count are those of the one-shot reader on the whole input, and it has a destination as soon as it has read that far |
| Conduct.SameBytesSameDecision | src/socks/server.rs:140-189 | Two runs that read the same bytes agree on target and username; and on every byte said, when both live with no write pending, the reads of both or of neither have failed, and Tor answered both alike |
| Conduct.FailsClosed | src/socks/server.rs:199-222 | What is written before the splice is a prefix of a legal transcript; a success reply only after Tor accepted; no payload moves unless that reply is fully written |
| Conduct.HandshakeBounds | src/socks/server.rs:140-213 | Every run reads at most 1032 bytes and writes at most 14 before the splice, more than 12 only after choosing username and password |
| Conduct.StepSpends | src/socks/server.rs:135-224 | Every event but a poll of the splice decreases a measure of bytes still needed, owed and awaited |
| Conduct.HandshakeEnds | src/socks/server.rs:135-224 | In every run, whatever it relays, a handler undergoes at most 1049 events other than splice polls |
| Splice.PayloadFollowsHandshake | src/socks/server.rs:139-223 | After any events, the bytes received from a client in order are the handshake up to its CONNECT and then exactly the payload relayed, so pipelined bytes become splice input; what it was sent is a part of the transcript, or all of it and then the payload |
| Server.SendReply | src/socks/server.rs:306-313 | All ten bytes of the reply go out, or the part the client takes and failure |
| Server.ReadUserpass | src/socks/server.rs:230-251 | Field-by-field reading of the sub-negotiation yields and consumes what the one-shot reader does, in success, refusal and end of input |
| Server.ReadTarget | src/socks/server.rs:256-283 | Likewise for address and port, for all address types (`Hosts.TargetTells` says what host and port that is) |
| Server.Answer | src/socks/server.rs:158-168 | The method choice and sub-negotiation, also when a write fails part-way |
| Server.Negotiate | src/socks/server.rs:139-168 | The negotiation from the first byte |
| Server.ReadRequest | src/socks/server.rs:170-189 | The request: refusals with their replies, or the destination with nothing beyond it consumed |
| Server.ServedIsSession | src/socks/server.rs:139-189 | A session whose client takes only so many bytes says the one-shot reader's transcript cut off there, and comes to a CONNECT if and only if that reader does and all that precedes it can be said |
| Server.Handshake | src/socks/server.rs:139-189 | Everything before Tor is asked, in place on the client: it yields a CONNECT if and only if the one-shot reader does and all that precedes it can be said, the same one, and leaves exactly the bytes behind it |
| Server.SocksServer.constructor | src/socks/server.rs:54-64 | The three shared objects are kept |
| Server.SocksServer.Relay | src/socks/server.rs:203-223 | Exactly one of the ok and failed counters moves, or neither if the success reply fails; behind the reply the client gets what the turns of the splice bring, in order, and its own next bytes go up; both are counted in totals and row |
| Server.SocksServer.Open | src/socks/server.rs:194-202 | Before Tor answers: the CONNECT is counted, its entry is the row of the next id and has counted nothing, and its token is the one of the policy; all other rows, tokens and counters stay |
| Server.SocksServer.Proxy | src/socks/server.rs:191-223 | The CONNECT is counted and registered under the next id with its peer, label and username, gets its token, and its row is gone afterwards, whatever happens; what is spliced is as `CopyBidirectional` says |
| Server.SocksServer.Handle | src/socks/server.rs:135-224 | The whole handler: without a CONNECT nothing but the client is touched; with one, counters, id, row, token, everything written, and the split of the client's bytes into handshake, relayed payload and unread rest are given by the one-shot reader on the client's bytes, and what is relayed either way by the turns of the splice |
| Server.SocksServer.SpawnConnection | src/socks/server.rs:114-133 | Refinement: from objects that mirror any run of the daemon, serving a client, whatever it sends and takes, whatever Tor answers and however the splice goes, leads to objects that mirror a longer run, with one handler more whose words, CONNECT, token, row and payload are those of this client |
| Solo.SoloRun | src/socks/server.rs:135-224 | For any input, any number of bytes the client takes, any answer of Tor and any payload, the machine has a run to its end with exactly the words, the CONNECT and the payload that go with them |
| Arrival.Arrive | src/socks/server.rs:114-133 | Any run of a handler can follow any run of the daemon; it takes the next id and its token by the policy, and its row is there until it ends |
| Arrival.ArrivedCounters | src/socks/server.rs:194-212 | What it adds to the five counters |
| Metering.Client.ReadExact | src/socks/server.rs:141-152 | `read_exact`: exactly the next n bytes however they are chunked, or failure if they never come |
| Metering.Client.WriteAll | src/socks/server.rs:306-313 | `write_all`: all of the data, or the prefix that fits and failure |
| Metering.Metered.constructor | src/socks/metered.rs:34-42 | Stream, totals and row are kept |
| Metering.Metered.PollRead | src/socks/metered.rs:45-62 | Bytes read are counted once in the total and once in the row; nothing is counted otherwise; a poll for bytes that yields none has no more to come |
| Metering.Metered.PollWrite | src/socks/metered.rs:65-78 | Likewise for bytes written, by the number actually taken |
| Common.FetchAddOverflows | src/socks/metered.rs:54-58 | `fetch_add` on a 64-bit counter: 18446744073709551615 is its last value, and 0 the next |
| Metering.CopyBidirectional | src/socks/server.rs:219-222 | Under any schedule of polls and however it ends: what goes up is the client's next bytes in order, what goes down is the heads of what the turns bring, in order; no turn stands still while it could move a byte; and all four counters grow by exactly the bytes relayed |
| Streams.StreamEntry.constructor | src/streams.rs:62-71 | A new entry has its id and description and has counted nothing |
| Streams.Metrics.constructor | src/metrics.rs:8-16 | All five counters start at zero |
| Streams.StreamRegistry.constructor | src/streams.rs:45-50 | An empty registry whose first id is 0 |
| Streams.StreamRegistry.Register | src/streams.rs:56-77 | Adds one fresh entry under the next id, which wraps; all other rows stay |
| Streams.StreamRegistry.Unregister | src/streams.rs:135-138 | Removes the row of this entry's id and no other |
| Streams.StreamRegistry.Len | src/streams.rs:79-82 | The number of live rows |
| Streams.StreamRegistry.Snapshot | src/streams.rs:91-117 | Each live entry as exactly one row, strictly increasing by id, from any iteration order |
| Streams.SortById | src/streams.rs:115 | The same rows, strictly increasing by id |
| Streams.SnapshotUnique | src/streams.rs:91-117 | There is only one snapshot of a live map, so the order of the hash map cannot show |
| Tor.TokenMint.New | src/tor.rs:81-90 | Tokens are never repeated |
| Tor.TorManager.constructor | src/tor.rs:52-65 | An own default token and an empty map |
| Tor.TorManager.IsolationTokenFor | src/tor.rs:78-94 | The token and the new map by policy and username; the map stays injective and clear of the default token |
| Daemon.Projection | src/socks/server.rs:114-224 | Under every schedule, each handler is where its own events alone bring a handler that runs by itself |
| Daemon.Noninterference | src/socks/server.rs:114-224 | Two runs, under any configurations, schedules and other connections, with the same events on one connection leave that handler in the same state |
| Daemon.NeverBlocked | src/socks/server.rs:114-224 | Whatever can happen to a handler alone can happen to it in the daemon, and nothing else can |
| Accounting.StepFated | src/socks/server.rs:194-212 | One event moves a CONNECT from not asked to waiting, from waiting to replying, failed or lost, from replying to ok or lost, and along no other way |
| Accounting.ConnectsAddUp | src/socks/server.rs:194-212 | In every reachable state the counter of CONNECTs is ok + failed + waiting for Tor + being told + lost in these two waits, each CONNECT in exactly one; as numbers below 2^64 connections, modulo 2^64 beyond |
| Traffic.ExecKeeps | src/socks/server.rs:191-224 | The invariants of rows, owners and byte counts hold in every reachable state |
| Traffic.BytesConserved | src/socks/metered.rs:45-78 | Each byte total equals the sum over all entries ever registered, live or gone, and the sum of what the handlers relayed, modulo 2^64, and as numbers below it |
| Traffic.RowsMatchHandlers | src/streams.rs:56-77 | Ids count the CONNECTs, and every entry says what its handler does; a row is always that of a handler between registering and returning, under its own id, and every such handler has its row unless an id was reused while live, as none of the first 2^64 is |
| Traffic.RowsKeptExactly | src/streams.rs:62-72 | No handler is ever without its row in a run if and only if no registration of the run finds its next id, which wraps, still live |
| Traffic.FewNeverReuse | src/streams.rs:62 | None of the first 2^64 registrations does |
| Crowd.RowsCanBeLost | src/streams.rs:62-72 | One more can: there is a run in which a waiting handler has lost its row to a reused id |
| Traffic.NoHandlersNoRows | src/streams.rs:135-138 | Once every handler is gone the registry is empty, in every run |
| Traffic.CountedWhileRegistered | src/socks/server.rs:198-223 | Every poll that relays bytes happens after Tor's consent and after the whole transcript with its success reply is out; and while the handler's own row is live, unless it was lost to a reused id |
| History.SnapshotWithinTotals | src/streams.rs:91-117 | The rows of any snapshot add up to at most the totals, while fewer than 2^64 bytes were relayed |
| History.ExecExtends | src/streams.rs:62-76 | From any state of a run to any later one: connections, entries and owners are only added to, descriptions and tokens stay, byte counts of handlers only grow |
| History.RowHistory | src/streams.rs:56-138 | Up to 2^64 registrations, an id that left the registry never comes back; an id seen twice has the same peer, target and username; its byte counts do not fall while fewer than 2^64 bytes were relayed |
| History.OpenKeepsRows | src/streams.rs:62-72 | Registering leaves all live rows alone if and only if the next id, which wraps after 2^64, is not live |
| IsolationRuns.ExecTokens | src/tor.rs:78-94 | In every reachable state the map is injective, holds issued tokens and avoids the default one, and every CONNECT has the token its policy says |
| IsolationRuns.IsolationExact | src/tor.rs:67-94 | Over whole runs, in terms of the usernames on the wire: `Shared`, one token for all; `PerQuery`, all distinct and none the default; `PerUpstream`, equal if and only if the usernames are equal, the default if and only if there is none, and an empty username is a username |
| IsolationRuns.TokensLast | src/tor.rs:40-43 | A username keeps its token for the life of the daemon, and a CONNECT the one it got |
| Service.EveryClientServed | src/socks/server.rs:114-224 | In every run of the daemon each connection has an entry if and only if its own client's bytes say a CONNECT, and the entry shows exactly that client, username, host and port; it is a row of the registry only while the handler runs, and for all that time if no id was reused while live |
| Service.EveryHandlerFailsClosed | src/socks/server.rs:114-224 | In every run of the daemon every connection fails closed, stays within a legal transcript and within the byte bounds |
| Service.EveryRowCountsPayload | src/socks/metered.rs:45-78 | In every run each entry counts, modulo 2^64, the bytes its own client sent behind its handshake, and those it was sent behind its transcript |
| Report.RowShown | src/format.rs:120-130 | A row of a snapshot, sent as JSON, is printed as its id, peer, target, username or dash, age and byte counts, in this order |
| Report.SnapshotTells | src/streams.rs:91-117 | In every run, each row of a snapshot is that of a running handler and has its id, peer, destination, username and, modulo 2^64, the bytes that it relayed each way; and every connection with a stream in the registry has such a row |
| Report.ClientShown | src/streams.rs:91-117 | From the wire to the terminal, in every run: the printed row of a client shows the host, port and username that its own bytes say, and its id, age and byte counts read back as the numbers that the snapshot has, rounded |
| Report.SnapshotPrinted | src/format.rs:120-130 | So does the printed row of every row of every snapshot, for some running connection |
| Report.UsernameBreaksLine | src/format.rs:120-147 | Any reply with the row of a client whose username on the wire holds a line break prints more lines than it has rows |
| Report.BreakingClientServed | src/socks/server.rs:158-198 | There is a run of the daemon with such a client and its live row |
| Json.BeforeByBytes | src/format.rs:94 | Keys sorted by chars are sorted by the bytes of their UTF-8, as the map sorts them |
| Reading.CompactReadsBack | src/format.rs:160-168 | JSON text reads back as the value it was made of, for every parsed value: words, numbers by their text, strings with all escapes, arrays and objects in order |
| Reading.ScalarDenotes | src/format.rs:159-168 | A scalar is a string as it is, a dash for null, and else text that reads back as the value and is never a dash |
| KeyValue.CollectKv | src/format.rs:90-107 | Pushing lines onto the vector, recursively, appends exactly the flattened tree |
| KeyValue.NamesDisplayed | src/format.rs:94-98 | Displayed are, in order, all keys but `status` at the top and all keys deeper down |
| KeyValue.FieldShown | src/format.rs:94-106 | In any reply, a field's line starts with its key, and its value column denotes its value: the string itself, `-` for null, else JSON text that reads back as the value |
| KeyValue.FlagShown | src/format.rs:160-168 | The value column of a flag is `true` if and only if it is set, else `false` |
| KeyValue.HeaderShown | src/format.rs:100-103 | A nested object, even an empty one, has its key and a colon for a line |
| KeyValue.NothingDisplayed | src/format.rs:61-66 | `command: ok` is printed if there is no key but `status`; any other key has a line |
| KeyValue.KeyWidthAttained | src/format.rs:67-72 | The width is 0 or the byte length of some key with a value |
| KeyValue.FlattenRoundTrip | src/format.rs:88-107 | Reading indentation and header marks back rebuilds the displayed tree, in order, with scalars as text, if and only if no header is followed by a sibling whose key starts with two spaces |
| KeyValue.LinesTellReply | src/format.rs:88-107 | The lines of a reply come from no other reply that shows something else, and read back, if the keys of its objects are safe; replies are all parsed values, with sorted and unique keys |
| KeyValue.SafeHeadMeans | src/format.rs:99 | A key is safe if and only if it sorts behind every key that starts with two spaces |
| KeyValue.HeadsExactly | src/format.rs:88-107 | For any choice of keys for objects: the lines tell every reply with such objects from all other replies if and only if all these keys are safe |
| KeyValue.UnsafeMayBeTold | src/format.rs:94-106 | A single reply with such an object may still be told from all others: `{"": {}}` is |
| KeyValue.IndentedKeysCollide | src/format.rs:94-106 | For every key that is not safe, two replies in map order with objects of that key only, which show different things by the same lines |
| KeyValue.OneLinePerName | src/format.rs:94-106 | There is one line for each displayed name at any depth |
| KeyValue.MeasureKeys | src/format.rs:67-72 | The width is the longest key with a value, in bytes |
| KeyValue.WriteLines | src/format.rs:73-84 | All lines in order, padded or marked as headers |
| KeyValue.RenderKv | src/format.rs:61-86 | The whole view, `KvText`, about which the other rows speak |
| KeyValue.TrimTakesOneBreak | src/format.rs:85 | The final trim takes the last line break and no more if and only if the last line is a header or its value ends in no blank |
| KeyValue.PrintedLines | src/format.rs:73-85 | Split at its line breaks, the printed view is one line for each flattened one, in order, if and only if no key or value holds a line break and the trim takes one line break |
| KeyValue.EmptyTextPrintsNothing | src/format.rs:85 | An empty text under an empty key is one line, of which nothing is printed |
| KeyValue.ValuesAligned | src/format.rs:74-78 | All values start in one char column, three behind the byte length of the longest key, for any text |
| Table.FillTable | src/format.rs:114-130 | The header and one row of seven cells for each stream, in order |
| Table.RowReadsBack | src/format.rs:120-157 | Under the headings ID, PEER, TARGET, ISO, AGE, UP and DOWN: the id as a scalar; peer, target and isolation verbatim, or a dash if they are no strings; age and both byte columns read back as the numbers they stand for |
| Table.Measure | src/format.rs:131-137 | Each width in the array is the byte length of the widest cell of its column |
| Table.WidthAttained | src/format.rs:131-137 | Some cell of each column is exactly as wide as its width |
| Table.WriteTable | src/format.rs:138-147 | All lines in order, each padded, joined and trimmed |
| Table.RenderStreams | src/format.rs:110-149 | The whole table, or a sentence when there is no stream |
| Table.ColumnsAligned | src/format.rs:131-146 | For any rectangular table and any text, cell i of every line starts at char offset sum over j<i of (width j + 2), and trimming takes only the blanks behind the last cell |
| Table.TableAligned | src/format.rs:110-149 | So it is in the table printed for any reply, which is the header and one built line for each row, joined by line breaks: the final trim takes one line break |
| Table.TableLines | src/format.rs:138-148 | Split at its line breaks, the table is the header and one line for each row, in order, if and only if no cell holds a line break; otherwise it has more lines |
| Text.TrimBlanks | src/format.rs:145-148 | Trimming a text that ends in no blank takes exactly the blanks appended to it |
| Text.PadFits | src/format.rs:143 | A cell no longer in bytes than the width is padded to exactly that many chars |
| Text.SplitJoin | src/format.rs:145-146 | Joined parts split back into themselves, and into as many, if and only if none holds the separator |
| Scaling.HumanBytes | src/format.rs:171-184 | The scaling loop ends, and prints the text that the next lemmas are about |
| Scaling.UnitFits | src/format.rs:175-178 | For every n: 1024^unit <= n unless the unit is bytes, n < 1024^(unit+1) unless it is the last, and the scaled value times the unit is n as a double |
| Scaling.ToF64Close | src/format.rs:173 | `n as f64` is n below 2^53 and off by at most half a spacing of doubles beyond |
| Scaling.LastExact | src/format.rs:173 | It is exact up to 9007199254740992, and of the next two odd numbers one goes down and one up |
| Scaling.NearestTies | src/format.rs:173 | Half-way between two multiples it goes to the even one |
| Scaling.ToF64Monotone | src/format.rs:173 | The conversion is monotone |
| Scaling.HumanDenotes | src/format.rs:171-184 | The text reads back as the rounded number it was printed from, and ends in its unit letter, never in a blank |
| Scaling.TenthsClose | src/format.rs:182 | One decimal is off by at most half a tenth, and half-way it is even |
| Scaling.PrintedClose | src/format.rs:171-184 | The printed number is within 1024^unit/20 of n below 2^53, exact in bytes, and off by half a spacing of doubles more beyond |
| Scaling.PrintedMonotone | src/format.rs:171-184 | More bytes never print as fewer, across all unit boundaries |
| Scaling.BoundaryTexts | src/format.rs:171-184 | One byte below 2^20 prints `1024.0K`, and 2^20 prints `1.0M` |
| Scaling.AgeDenotes | src/format.rs:187-195 | Ages read back exactly below an hour and in whole minutes from there |
| Scaling.AgeParts | src/format.rs:187-195 | From a minute on an age is two numbers, in minutes and seconds below an hour and in hours and minutes from there, the second below 60 |

## Left out

- The accept loop, its back-off, logging and `is_benign_disconnect`: an accepted connection is an event of the daemon.
- The runtime and VCL adapters (src/runtime): delegation to libraries that are not part of this model.
- Circuits, guards and bootstrap inside arti: opening a stream succeeds or fails as the surroundings choose.
- The control socket, configuration and process setup (src/control.rs, src/config.rs, src/main.rs): I/O around the state modelled here; of the socket only the JSON of a row is (`Report.RowJson`).
- Memory order of the atomics, and poisoning of the locks: all handlers run on one thread.
- Which error ended a connection: errors are told apart by what is written and counted, not by their text.
- Wall-clock fields (`started`, `age_secs`, uptime): an age is an input of the renderer.
- The text of socket addresses (`SocketAddr::to_string`): a peer carries its text and whether it is unspecified.
- Parsing and pretty-printing of JSON, and the choice between the renderer's views: the renderer starts from a parsed value, and numbers carry the text they print as. `Reading` is this project's own reader, there to say what printed text means.
- Standard-library texts (`Ipv4Addr`, `Ipv6Addr`, UTF-8, `u64 as f64`, `{:.1}` with ties to even): modelled after their documented behaviour, since none of it is in the repository.
- History.RowHistory: stated for at most 2^64 registrations, and its byte counts below 2^64 bytes relayed, since ids and counters wrap there; what a reused id does to the rows is in `Traffic.RowsKeptExactly`.
- History.SnapshotWithinTotals: stated below 2^64 bytes relayed, since totals and rows wrap separately.
- KeyValue.LinesTellReply: about lines before they are padded into text (`PrintedLines` says when text and lines agree); and its condition is exact for a choice of keys (`HeadsExactly`), not for each single reply, since whether one with an unsafe key collides depends on the other keys (`UnsafeMayBeTold`).
- Server.SocksServer.SpawnConnection: one client after another; several at a time are `Daemon`'s, where each is a sequence of atomic steps.
- Streams.SortById: written as an insertion sort; the library's algorithm is not part of this model, and distinct ids leave it no choice of result.

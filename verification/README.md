# Nexus-Gateway in Dafny

Nexus-Gateway is a small HTTP reverse proxy in C: a master process forks workers; each worker accepts connections,
parses one request per connection, checks it against a per-address rate limit, picks an upstream by smooth weighted
round robin, rewrites the headers, prints the request to the upstream and copies the answer back. A hangup signal
restarts all workers gracefully.

This project models that behaviour and proves what it guarantees over whole runs. Code that the gateway runs in place
(arrays of nodes, bucket entries, headers and slots, buffers filled by position, the parsing loop) is a class or a
method proved equal to a function; the theorems are lemmas about those functions, for all inputs and all runs.

`dafny verify dfyconfig.toml` checks everything.

| modules | what they cover |
|---|---|
| Sums, Upstream, Fleet, Fairness, Cycle | the balancer: every run, bounded counters, shares, no starvation, the exact period |
| Health, Probing | probe results, failure counts, which nodes a pick may return, and fairness while probes go on |
| RateLimit, TableRoom | the token buckets: who is held and admitted exactly, and that no conforming policy admits more |
| Options, Division, Bytes, Fnv | shared helpers; bytes, C strings, and the hash that tags header names |
| HeaderTable, HeaderSets | the header table and sequences of set operations on it |
| HttpParser, HttpRequest, Grammar | the resumable parser, as a function and as the program runs it, and exactly which lines it takes |
| HttpSerialize, RoundTrip, LineLimit | the printer, and exactly which requests survive print and parse |
| AsPrinted | what a printed request shows of headers that hold NUL bytes |
| ReqId, Rewrite, Gatekeeping, Forwarding, Provenance, Written | request identifiers and the header rewrite, also byte by byte |
| Idempotence, FullTables | rewriting twice: with configured headers, and on tables too full for all headers |
| Relay, Dispatch, Routes, OneRequest, InBytes | from the client's bytes to the upstream's, and what all workers together may let through |
| Worker, Pool, Outcomes, Threads | a worker's connection pool under any sequence of events, alone and beside the health thread |
| Restart, Polls, Endings, Histories | the graceful restart protocol, interleaved step by step: how long the master waits, how each worker ends |

## How things are represented

- Bytes are 8-bit vectors, hashes 32-bit vectors with wrap-around. A C string argument is a byte sequence without NUL;
  where the code treats stored bytes as a C string the model cuts them at the first NUL.
- The limiter's `double` tokens are integers in thousandths of a token, which makes the arithmetic exact. The
  difference of clock readings wraps at 2^64.
- Counters, weights and lengths are mathematical integers.
- The kernel, the clock, `rand`, probes, sockets and scheduling appear as parameters or as nondeterministic outcomes
  carried by events. The kernel hands out only descriptors that are not open, and descriptor 0 is open from the start.
- In the restart protocol loading the generation, the two reads before accepting, and the two reads at the end of a
  loop turn are separate steps, and so is every poll, kill and fork of the master. A worker's counter, by which it
  leaves, and the connections it holds are separate numbers.
- An entry of a header table goes by a name when it has the hash of the name and reads so as a C string; that is what
  removals look at. It is a stray under a name when it reads so but has another hash: names are stored and hashed in
  full, NUL bytes included, but compared and printed only up to the first NUL.
- Pool handles each event in one step. Threads splits the handlers that close a descriptor twice, and lets the health
  thread open and close descriptors at any point.
- The grammar the parser accepts is a subset of RFC 9112: request line (section 3), field lines (section 5),
  Content-Length body (section 6.3).

## Where the code does not do what one would expect

The model follows the code. What is said here is proved:

- A header whose name goes on behind a NUL is not removed by the rewrite and is printed under the part before the NUL
  (`Provenance.StrayIsPrinted`; from the client's bytes to the upstream `OneRequest.StrayReachesUpstream`). What is
  printed under an injected name is the gateway's alone if and only if no such header came in
  (`Provenance.CleanIffNoStray`; for the upstream `Relay.UpstreamHoldsOursIff`).
- With a bound on the surviving headers alone the injected headers need not all fit: old Via and X-Gateway-Req-Id
  entries still take up room while the earlier headers are set (`Forwarding.AllInjectedIffRoom`,
  `Forwarding.SurvivorsAloneAreNotEnough`).
- Header lookup compares hashes only; `HeaderTable.GetIsLookupIff` says exactly when that is lookup by name, and
  `HeaderTable.GetConfusesCollidingNames` gives two names it confuses.
- A second rewrite with the same inputs may change what the first one made. When the first rewrite had room for every
  header, that takes a configured Host: it happens exactly when the Host left behind reads differently from the one
  found and X-Forwarded-Host is not configured itself (`Idempotence.RewriteIsIdempotentIff`,
  `Idempotence.OwnHostIsNotIdempotent`). When the first rewrite had no room for some header, the second may find it;
  without configured headers `FullTables.RewriteTwiceIff` says for which tables, and
  `FullTables.FullTableIsNotIdempotent` gives one.
- The configuration reader does not trim behind the colon (src/config.c:84-85): `add_header = X-A: 1` stores a value
  with a blank in front. A request printed with such a value is never read back as it is shown, because the receiver
  skips the blank (`Relay.BlankIsNotReadBack`, `Relay.ConfiguredBlankIsNotReadBack`).
- A request with a body is forwarded with its Content-Length but without the body (`Dispatch.ForwardedIsReadable`,
  `OneRequest.BodyIsNotForwarded`).
- A line of 1024 bytes or more is cut and the parse continues in the middle of it; `LineLimit.RoundTripIff` shows that
  this, besides well-formedness, is exactly what the round trip needs.
- The rate limit is kept per worker: n workers together let through up to n times as much, and for an address their
  tables hold no more (`Dispatch.ForwardedWithinAllowance`, `OneRequest.BoundIsReached`).
- A hard read error from an upstream leaves the connection counter too high for ever, so that worker never drains by
  itself, and a restart may kill it though it holds nothing (`Pool.LeavesIff`, `Pool.HardErrorMeansNoDrain`,
  `Pool.CounterCanBeStuck`; in the restart protocol `Endings.NoDrainAfterHardError`, `Endings.StuckCounterIsKilled`),
  although README.md:238 of the repository reports that all workers drain.
- When the pool is full an accepted connection is neither served nor closed (`Pool.LostOnlyWhenFull`,
  `Pool.PoolCanOverflow`).
- Some handlers close an upstream descriptor twice. If the health thread is given the number in between, the second
  close takes it away (`Threads.OwnershipIff`, `Threads.ProbeClosesAClient`).
- A worker that is forked before a restart but loads its generation after the announcement does not drain in it
  (`Restart.LateLoaderIsKilled`, `Endings.IdleLateLoaderIsKilled`).
- A restart can cut connections, although README.md:237 of the repository says it does not: exactly those a
  worker holds when it is killed after the last poll (`Endings.ConnectionsCutIff`, `Endings.ConnectionsCanBeCut`).
- The largest weight and the gcd are computed at the first pick and never again, so nodes added later do not count in
  them (`Fleet.FirstPickFixesWeights`); picks do not use either.
- A health threshold below 1 acts as 1 (`Health.HealthIsHysteresis`).
- Taken alone, the limiter never limits an address of 64 characters or more (`RateLimit.LongAddressIsNotLimited`). The
  worker only passes addresses that fit (src/worker.c:47, src/worker.c:320).

## Model

| member | source | states |
|---|---|---|
| Upstream.Upstream.constructor | src/upstream.c:7-11 | A new balancer has no nodes and unset weights |
| Upstream.Upstream.Add | src/upstream.c:13-21 | Appends one healthy node with counter 0 and a positive weight, or fails on a full table and changes nothing |
| Upstream.Upstream.Recompute | src/upstream.c:23-32 | The loop computes the largest weight and the gcd of all weights |
| Upstream.Upstream.PickNode | src/upstream.c:34-57 | The two loops over the array refine the pick as a function: the node returned and the whole new balancer |
| Upstream.Upstream.SetHealth | src/upstream.c:59-65 | Exactly the nodes of that host and port get the new health |
| Upstream.BestIsFirstLargest | src/upstream.c:46-54 | The scan returns the first healthy node with the largest counter, and none exactly when no node is healthy |
| Upstream.PickIsFirstLargest | src/upstream.c:38-54 | On the nodes as they come in: the pick is the first healthy node with the largest counter plus weight; none exactly when no node is healthy |
| Fleet.PickMovesCounters | src/upstream.c:38-55 | A pick raises every healthy node's counter by its weight, lowers the chosen one's alone, keeps the sum, and changes nothing else about a node |
| Fleet.NodeCount | src/upstream.c:13-15 | In every run there are as many nodes as were added, but at most 16 |
| Fleet.NodeFromHistory | src/upstream.c:13-65 | In every run each node is the one an addition made: host cut to 63 bytes, port, weight or 1, and the health last marked for its host and port since then |
| Fleet.CounterFromHistory | src/upstream.c:34-57 | In every run a node's counter is its weight for each pick while it was healthy, less the healthy total for each pick that chose it |
| Fleet.FirstPickFixesWeights | src/upstream.c:23-37 | The stored largest weight and gcd are those of the nodes at the first pick that finds any, for ever |
| Fleet.SixPicks | src/upstream.c:34-57 | Three nodes of weights 3, 2 and 1 are picked as 0, 1, 0, 2, 1, 0, and the counters are back at 0 |
| Fairness.PickOnSet | src/upstream.c:38-55 | What one pick does to the sum of the counters over any set of nodes |
| Fairness.PickStaysFair | src/upstream.c:34-57 | A pick keeps: the counters sum to 0 and every k-subset of the N nodes sums to at least -W*k*(N-k) |
| Fairness.AddStaysFair | src/upstream.c:13-21 | Adding a node keeps that invariant, although N and W grow |
| Fairness.MarkStaysFair | src/upstream.c:59-65 | Changing health keeps it |
| Fairness.RunsStayFair | src/upstream.c:13-65 | Every run of adding, marking and picking, in any order, keeps it |
| Fairness.CountersStayBounded | src/upstream.c:13-65 | After any run every counter lies in [-(N-1)W, (N-1)W], however health flaps |
| Fairness.Account | src/upstream.c:34-57 | After k picks a counter has risen by k times the weight and fallen by its hits times the healthy total; an unhealthy node has no hits |
| Fairness.ShareFromAnyState | src/upstream.c:34-57 | From any reachable state, in any k picks on an unchanged fleet, a healthy node's hits times the healthy total is within 2(N-1)W of k times its weight |
| Fairness.NoStarvation | src/upstream.c:34-57 | Hence it is chosen in every window longer than 2(N-1)W / weight picks |
| Cycle.GcdDivides | src/upstream.c:5 | The recursive gcd divides both numbers |
| Cycle.GcdIsGreatest | src/upstream.c:5 | Whatever divides k times both numbers divides k times the gcd |
| Cycle.GcdOfIsGreatest | src/upstream.c:23-32 | The same for the gcd of the whole weight list, as the loop computes it |
| Cycle.NeverDeep | src/upstream.c:34-57 | Started with all counters 0, no counter ever reaches minus the healthy total |
| Cycle.AtMostShare | src/upstream.c:34-57 | Within total / d picks no node gets more than weight / d, and one that got exactly that is back where it started |
| Cycle.ExactCycle | src/upstream.c:34-57 | For any common divisor d: after total / d picks each node was chosen exactly weight / d times and the balancer is unchanged |
| Cycle.PicksRepeat | src/upstream.c:34-57 | Once the state recurs after K picks, the state after n picks is the one after n mod K |
| Cycle.RestIffWholePeriods | src/upstream.c:34-57 | The balancer is back at rest after k picks if and only if k is a multiple of healthy total / gcd: the exact period |
| Cycle.StoredGcdIsThePeriodGcd | src/upstream.c:23-36 | With all nodes healthy the gcd stored at the first pick is the one of that period |
| Health.Checker.Record | src/health.c:39-45 | One probe result: reset and healthy, or count and unhealthy from the threshold on; nothing else changes |
| Health.Checker.Round | src/health.c:38-46 | One pass over all nodes is the probe results applied in order |
| Health.HealthIsHysteresis | src/health.c:35-50 | In every history of probes, additions and picks the count is the trailing run of failures, and healthy means that run is below the threshold (below 1 acts as 1) |
| Health.RoundIsProbes | src/health.c:38-46 | After any history a pass of the checker is the history that goes on with one probe of each node, in node order |
| Health.RoundNodeByNode | src/health.c:38-46 | Node by node: an answer means healthy and no failures, a failure counts and from the threshold on means unhealthy; nodes not reached and all else stay |
| Probing.NodeAdded | src/upstream.c:13-21 | In every history of probes, additions and picks each of the first sixteen additions makes the next node, which keeps host, port and weight |
| Probing.PickInHistory | src/upstream.c:34-57 | A pick in such a history is one on the nodes as the probes left them, and counts no failures |
| Probing.HistoryStaysFair | src/health.c:35-50 | Whatever the probes say, the counters stay fair |
| Probing.CountersBoundedUnderProbes | src/health.c:35-50 | So every counter stays in [-(N-1)W, (N-1)W] while the checker marks nodes at will |
| Health.PickObeysProbes | src/health.c:35-50 | A pick returns a node whose failure run is below the threshold; NULL, with the counters unchanged, exactly when there is none |
| RateLimit.RateLimiter.constructor | src/rate_limit.c:6-10 | An empty table with the given rate |
| RateLimit.RateLimiter.FindOrCreate | src/rate_limit.c:12-22 | Index of the first entry of the address, a new full bucket at the end, or nothing when the table is full |
| RateLimit.RateLimiter.CheckIp | src/rate_limit.c:24-37 | The in-place update refines one step of the limiter as a function: verdict and whole table |
| RateLimit.FindIsFirst | src/rate_limit.c:13-15 | The search finds the first entry of the address, and fails exactly when there is none |
| RateLimit.TableIsBuckets | src/rate_limit.c:12-37 | After any run the entry of an address is the bucket fed by its own calls alone: the table refines a map of independent buckets |
| RateLimit.VerdictIsOwn | src/rate_limit.c:24-37 | The verdict is that of the address's own bucket; with a full table an unknown address passes |
| TableRoom.TableFromCalls | src/rate_limit.c:12-22 | The table has one entry for each new address while there are fewer than 1024, and holds exactly the addresses that came then |
| TableRoom.HeldIff | src/rate_limit.c:12-22 | An address is held exactly if fewer than 1024 new addresses came before it, or it came itself when fewer had |
| TableRoom.NotHeldPasses | src/rate_limit.c:24-26 | Any other address passes |
| RateLimit.AdmitsExactly | src/rate_limit.c:24-37 | A call of a held address is admitted if and only if for every earlier call j of it, and itself, 1000*(admitted since j + 1) <= 1000*rate + rate*(now - t_j), times in milliseconds; any rate, any interleaving |
| RateLimit.LimiterIsBest | src/rate_limit.c:24-37 | If the table holds the address at all its calls, the verdicts conform to that bound in every window, and no conforming verdicts ever admit more |
| RateLimit.WindowBound | src/rate_limit.c:24-37 | Verdicts that conform to the bound admit, in any window from a call of the address until t, at most a full bucket plus the refill |
| RateLimit.LongAddressIsNotLimited | src/rate_limit.c:12-22 | About the function alone: an address that does not fit its field is never found again, and every check of it passes |
| RateLimit.ElapsedWraps | src/rate_limit.c:28 | A clock reading below the last one counts as 2^64 milliseconds more |
| Fnv.HashFnv1a | src/util.c:34-41 | The loop computes the fold of the 32-bit mixing step over the bytes |
| Fnv.PublishedValues | src/util.c:34-41 | The published FNV-1a values of nothing, of a and of foobar |
| Fnv.SuffixInjective | src/util.c:36-39 | For a fixed suffix the hash is injective in the running state |
| Fnv.OneByteNeverCollides | src/util.c:34-41 | Two names of one length that differ in exactly one byte have different hashes |
| Fnv.CollidingNames | src/util.c:34-41 | Two concrete lower-case names with the same hash |
| HeaderTable.Table.NormalizeLower | src/http_header.c:18-23 | The copy with every byte lowered |
| Bytes.LoweredSameIff | src/http_header.c:18-23 | Two names are equal in lower case if and only if they differ in nothing but the case of letters A to Z |
| HeaderTable.Table.AddHeader | src/http_header.c:30-43 | Appends the lowered, hash-tagged pair, or fails on a full table and changes nothing |
| HeaderTable.Table.GetValue | src/http_header.c:45-56 | The value of the first entry with the hash of the name |
| HeaderTable.Table.DropAt | src/http_header.c:80-86 | The shifting loop removes exactly entry i and keeps the order of the rest |
| HeaderTable.Table.Remove | src/http_header.c:68-96 | The in-place loop refines the filter by hash and name |
| HeaderTable.Table.Set | src/http_header.c:58-66 | Removal, then an append that may fail; the result code says which |
| HeaderTable.GetIsLookupIff | src/http_header.c:45-56 | Lookup by hash finds the entry lookup by name finds if and only if no colliding entry comes before it |
| HeaderTable.GetIsLookup | src/http_header.c:45-56 | Without a collision, get is case-insensitive first-match lookup |
| HeaderTable.GetConfusesCollidingNames | src/http_header.c:45-56 | The hypothesis is needed: a table with one header answers for another name |
| HeaderTable.NeighboursAreClear | src/http_header.c:45-56 | Names of one length that differ from the target in a single byte are never confused with it |
| HeaderTable.RemoveIsFilterIff | src/http_header.c:68-96 | Removal is the order-preserving filter on the lower-case name if and only if no entry has a name that goes on behind a NUL and collides with its own front; no other collision matters |
| HeaderTable.SetIsAllOrNothing | src/http_header.c:58-66 | For any table: either what a removal leaves plus the new pair at the end, or the unchanged full table, which does not hold the name |
| HeaderSets.SetAllKeepsOthers | src/http_header.c:58-96 | On any table, any sequence of set operations, accepted or not, keeps in order all headers that go by none of the names |
| HeaderSets.SetAllNamed | src/http_header.c:58-96 | At most one entry goes by a name that was set, and only with the value set last |
| HeaderSets.SetAllShape | src/http_header.c:58-96 | If all were accepted, the table is the other headers followed by one entry per name in the order last set |
| HeaderSets.AcceptedIff | src/http_header.c:58-66 | All set operations are accepted if and only if, after each of them, the other headers plus one entry per name set so far fit in 32 |
| HeaderSets.AcceptedIffAllThere | src/http_header.c:58-66 | For different names: all were accepted exactly when all are in the table at the end |
| HttpRequest.HttpReq.constructor | src/http_parser.c:8-12 | The initial request |
| HttpRequest.HttpReq.ParseRequestLine | src/http_parser.c:19-38 | Method, path and version of a request line; on failure the fields copied so far stay |
| HttpRequest.HttpReq.FeedLine | src/http_parser.c:73-101 | One line as the 1024-byte buffer holds it: request line, empty line or header line |
| HttpRequest.HttpReq.Feed | src/http_parser.c:40-104 | The loop over the buffer refines the parser as a function: whole request and bytes consumed |
| HttpParser.FeedAppend | src/http_parser.c:40-104 | Feeding x and then the unread tail of x with y appended is feeding both at once |
| HttpParser.ChunksDoNotMatter | src/http_parser.c:40-104 | Any number of chunks with the tail carried forward gives the same request, unread tail and total consumed as one call |
| HttpParser.AnyTwoChunkingsAgree | src/http_parser.c:40-104 | Hence any two ways to cut the same bytes agree |
| HttpParser.VerdictIsFinal | src/http_parser.c:40-48 | Once bytes led to DONE or INVALID, bytes after them change neither the request nor the count consumed |
| HttpParser.FeedKeepsBody | src/http_parser.c:49-56 | In BODY there is always a positive number of bytes to come, which is why the loop ends |
| Grammar.FirstLineIff | src/http_parser.c:19-38 | The first line splits as verb, path and version in exactly one way and is kept, or the request is refused and no byte used: less than 16 bytes, less than 1024, HTTP/1.0 or HTTP/1.1, up to its first NUL |
| Grammar.NextLineIff | src/http_parser.c:81-98 | A further line with a colon splits in exactly one way and becomes one header more; without a colon, or behind 32 headers, the request is refused and the line not used |
| Grammar.LongLineIsCut | src/http_parser.c:64-71 | A line of 1024 bytes or more is read as if its bytes 1023 and 1024 were the line end |
| Grammar.EmptyLineIff | src/http_parser.c:77-80 | The empty line completes the request, or a positive number of body bytes is to come, as the first header with the hash of content-length says |
| Grammar.BodyIff | src/http_parser.c:49-56 | The body is counted off, and what follows it is left alone |
| Grammar.AtoiReads | src/http_parser.c:78-79 | A length is read as space, at most one sign, and decimal digits; what follows does not matter |
| Grammar.AtoiOfDecimal | src/http_parser.c:78-79 | Every number written in decimal is read back |
| HttpSerialize.Snprintf | src/http_parser.c:123-134 | The bounded print used in both passes: cut off, terminated, full length returned |
| HttpSerialize.Needed | src/http_parser.c:110-118 | The first pass computes the length of the printed request |
| HttpSerialize.Serialize | src/http_parser.c:107-137 | Two passes fill the buffer with exactly the printed request and a terminator, or return -1 and leave the buffer alone |
| InBytes.PrintWrittenOut | src/http_parser.c:120-134 | Any request: verb, path and version, then each header that has a name as a line, all cut at the first NUL |
| RoundTrip.PrintThenParse | src/http_parser.c:40-137 | Print, then parse, with anything after it: a well-formed request whose lines fit comes back field by field, every byte is used, and the rest is the body |
| RoundTrip.FeedStaysSound | src/http_parser.c:19-104 | From any bytes the parser only ever builds requests that are well formed but for NUL bytes in headers |
| RoundTrip.AcceptedIsWellFormed | src/http_parser.c:40-104 | Whatever is accepted is of that kind, and well formed if and only if no header holds a NUL |
| AsPrinted.SeenIsWellFormed | src/http_parser.c:122-131 | Cut at the first NUL, as the printer shows them, the headers of an accepted request are well formed |
| AsPrinted.ParseThenPrintThenParse | src/http_parser.c:40-137 | For any bytes: an accepted request, printed and parsed again, is the request as it is shown, if and only if every line shown fits the line buffer |
| AsPrinted.StrayMeansNul | src/http_header.c:74-79 | In a table the parser built, an entry printed under a name that removals of the name do not find has a name that goes on behind a NUL, and conversely unless the hashes collide |
| RoundTrip.RoundTripIffWellFormed | src/http_parser.c:40-137 | Among requests whose lines fit, exactly the well-formed ones survive |
| LineLimit.UnfitField | src/http_parser.c:67-71 | From the first header that has no name or does not fit the line buffer on, the header list cannot come back |
| LineLimit.RoundTripIff | src/http_parser.c:40-137 | A request survives printing and parsing if and only if it is well formed, every header has a name and every line fits the buffer |
| RoundTrip.ReceiverWaitsForBody | src/http_parser.c:77-80 | The receiver of a printed request ends in BODY with n bytes to come exactly when it announces a Content-Length n > 0 |
| ReqId.GenerateReqId | src/http_rewrite.c:12-29 | The backward do-while loop stays in the buffer, writes the last base-36 digits that fit, right-aligned before the terminator, and touches nothing in front of them |
| ReqId.DecodeEncoded | src/http_rewrite.c:22-28 | Decoding the string gives the number back modulo 36^room |
| ReqId.SameStringIffSameParts | src/http_rewrite.c:12-29 | With room for 13 digits or more, two identifiers are equal strings if and only if timestamp mod 2^32 and random part are equal |
| ReqId.AtMostThirteenDigits | src/http_rewrite.c:12-29 | No identifier has more than 13 digits |
| Written.IdSaysTimeAndRandom | src/http_rewrite.c:12-29 | Read in base 36, the identifier is the timestamp mod 2^32 times 2^32 plus the random number |
| Written.EncodedDigits | src/http_rewrite.c:22-28 | Digit by digit: 0 to 9, then a to z, the last one for the remainder by 36 |
| Rewrite.NewReqId | src/http_rewrite.c:64-66 | The identifier in the 16-byte buffer is the full base-36 string |
| Rewrite.RewriteRequest | src/http_rewrite.c:31-77 | The in-place rewrite refines the rewrite as a function of the table, and changes only the headers |
| Gatekeeping.HostStandsApart | src/http_rewrite.c:42-67 | No injected name has the hash of Host, so the hash-only lookup of Host is not disturbed by them |
| Gatekeeping.RewriteIsSets | src/http_rewrite.c:31-77 | The whole rewrite is one sequence of set operations on the stripped table, with the Host of the incoming table |
| Forwarding.OnlyTheGatewaySpeaks | src/http_rewrite.c:31-77 | For any table and any configured headers: all headers that go by no injected or configured name survive in order; at most one entry goes by such a name, with the gateway's last value |
| Forwarding.InjectedNamesOnce | src/http_rewrite.c:31-67 | Without configured headers, name by name: the value of the one entry that may go by it, and no X-Forwarded-Host without a Host |
| Provenance.PrintedUnderOurNames | src/http_rewrite.c:31-77 | What is printed under an injected or configured name, for any table: the strays that came in under it, in order, and then at most the gateway's own entry |
| Provenance.CleanIffNoStray | src/http_rewrite.c:31-77 | Nothing but the gateway's entry is printed under such a name if and only if no incoming entry reads so as a C string with another hash |
| Provenance.GatewaysValuesIff | src/http_rewrite.c:31-77 | Every value printed under such a name is the gateway's if and only if those of the incoming strays are |
| Provenance.StrayIsPrinted | src/http_rewrite.c:42-50 | Strays exist: a header line with a NUL behind the name X-Real-IP is stored as one, stays through every rewrite and is printed as an X-Real-IP line with its own value |
| Forwarding.AllInjectedIffRoom | src/http_rewrite.c:49-67 | All applicable headers are injected if and only if s+v+q+3+h, s+q+4+h and s+5+h are at most 32 (s survivors, v old Via, q old X-Gateway-Req-Id, h = 1 with a Host) |
| Forwarding.TwentySixSurvivorsFit | src/http_rewrite.c:49-67 | At most 26 survivors and at most one old Via and X-Gateway-Req-Id each always leave room |
| Forwarding.SurvivorsAloneAreNotEnough | src/http_rewrite.c:49-67 | A bound on the survivors alone is not enough: 32 Via headers, none surviving, leave no room |
| Forwarding.SurvivorsThenInjected | src/http_rewrite.c:49-67 | When there is room, the table is the survivors followed by the injected headers, entry by entry |
| Written.RewriteWrittenOut | src/http_rewrite.c:31-67 | The same byte by byte: names, hashes, the address or unknown, the first Host, http, the gateway's name and version in at most 63 bytes, the identifier |
| Written.InjectedNames | src/http_rewrite.c:42-67 | The six names, byte by byte |
| InBytes.InAndOut | src/worker.c:141-202 | One request byte by byte: what is parsed of it, and what goes out for it |
| Idempotence.HostAfterwards | src/http_rewrite.c:42-76 | The Host a rewrite leaves behind, read off its input: the first that came in and is not replaced, or else the first configured one |
| Idempotence.RewriteIsIdempotentIff | src/http_rewrite.c:31-77 | If the first rewrite had room for all headers, rewriting again with the same identifier changes nothing if and only if X-Forwarded-Host is configured or the Host left behind reads as the one found |
| Idempotence.RewriteIsIdempotent | src/http_rewrite.c:31-77 | In particular if no configured header has the hash of Host |
| Idempotence.OwnHostIsNotIdempotent | src/http_rewrite.c:52-76 | A table and a configuration for which it does change: the empty table and a configured Host |
| FullTables.RewriteTwiceIff | src/http_rewrite.c:31-67 | Without configured headers, for every table, with or without room: rewriting twice is rewriting once if and only if all headers found room the first time, or v <= 1 and q <= 1, or v = 2 and q = 0 (v Via and q X-Gateway-Req-Id in the table) |
| FullTables.FullTableIsNotIdempotent | src/http_rewrite.c:49-67 | A table for which it is not: 32 Via headers, and no header configured |
| Relay.RewriteStaysWellFormed | src/http_rewrite.c:31-77 | Rewriting with printable inputs keeps a request as the parser accepts it, and a well-formed one well formed |
| Relay.IdIsGood | src/http_rewrite.c:12-29 | Every generated identifier is printable |
| Relay.SameContentLength | src/http_rewrite.c:31-77 | Rewriting does not change the body length the printed headers announce, if no configured name has the hash of Content-Length |
| Relay.SeenAnnounced | src/http_parser.c:77-80 | If every header goes by the name it is printed under, the printed headers announce what the table announces |
| Relay.ReadBackIff | src/worker.c:141-202 | For any client bytes and any configuration: what the gateway prints is read back as it is shown if and only if what is shown is well formed and every line of it fits the line buffer |
| Relay.ArrivingIsWellFormed | src/worker.c:141-202 | It is well formed if the client's bytes are accepted and the address, the version, the identifier and the configured pairs can be printed: no CR LF in them, no blank in front of a value, no colon in a name |
| Relay.ReadBackIffItFits | src/worker.c:141-202 | For accepted bytes and values like these the length of the lines is all that counts |
| Relay.BlankIsNotReadBack | src/http_parser.c:82-87 | If any rewritten header has a value shown with a blank in front, the request is not read back as it is shown |
| Relay.ConfiguredBlankIsNotReadBack | src/config.c:84-85 | So it is for every request when the last value configured under some name starts with a blank, as the reader stores it, and the headers find room |
| Relay.ClientToUpstream | src/worker.c:141-202 | If it is read back: the upstream has the client's request line and the rewritten headers as shown, and waits for the body they announce |
| Relay.UpstreamHolds | src/worker.c:141-202 | If it is read back: under an injected or configured name the upstream holds the client's strays and then at most the gateway's own header |
| Relay.UpstreamHoldsOursIff | src/worker.c:141-202 | Then it holds nothing else than the gateway's own header if and only if no stray came in under the name |
| Relay.UpstreamValuesIff | src/worker.c:141-202 | Then every value it holds under a name the gateway sets is the gateway's if and only if every stray carries that value too |
| Relay.UpstreamSeesTheRealClientIff | src/worker.c:141-202 | In particular, unless X-Real-IP is itself configured, every X-Real-IP the upstream holds is the address the gateway gives if and only if every stray carries that address too |
| OneRequest.StrayReachesUpstream | src/http_rewrite.c:42-50 | Concrete bytes that are accepted, forwarded and read back, after which the upstream holds an X-Real-IP that is not the address the gateway gives |
| Dispatch.HandleRequest | src/worker.c:129-221 | Parser, limiter, balancer, rewrite and printer, run in place one after the other, refine the routing function: verdict, limiter, balancer and output buffer |
| Routes.OutcomeIff | src/worker.c:129-221 | Each way a request may end, and exactly when it ends so; a static file means a path that starts with /static/, too long means 4096 bytes or more |
| Routes.ChangesIff | src/worker.c:141-202 | A request takes a token exactly if it is complete and not blacklisted, and a pick exactly if it then passes the limiter and is not for a static file |
| Routes.BalancerSeesPicks | src/worker.c:141-202 | Over any arrivals the balancer is picked from once for each such request, and not otherwise |
| Dispatch.ForwardedIsReadable | src/worker.c:141-221 | A forwarded request fits the buffer, is read back as shown if and only if that is well formed and its lines fit, and then is complete for the upstream if and only if its headers announce no body |
| OneRequest.BodyIsNotForwarded | src/worker.c:141-221 | A request with one body byte, complete at the gateway and given an upstream, after which the upstream waits for one byte more |
| Dispatch.LimiterSeesCalls | src/worker.c:141-171 | Over any arrivals the limiter sees exactly the complete requests that are not blacklisted |
| Dispatch.OneWorkerWithinAllowance | src/worker.c:129-221 | One worker whose table holds the address passes on from it, from any of its requests until t, at most a full bucket plus the refill |
| Dispatch.ForwardedWithinAllowance | src/worker.c:372-373 | Each worker has its own limiter, fresh when it is forked: if n workers serve an address that their tables hold, the upstreams get from it in any window at most n full buckets plus n times the refill |
| OneRequest.BoundIsReached | src/worker.c:372-373 | For every n, n freshly forked workers do let that many through |
| Worker.WorkerProcess.constructor | src/worker.c:351-352 | The zeroed pool |
| Worker.WorkerProcess.ProxyAlloc | src/worker.c:63-73 | Takes the first free slot, or none |
| Worker.WorkerProcess.ProxyFree | src/worker.c:75-91 | Frees the slot and nothing else |
| Worker.WorkerProcess.CloseClientConn | src/worker.c:93-109 | Closes both descriptors, counts the connection off and frees the slot |
| Worker.WorkerProcess.ProxyGet | src/worker.c:111-118 | The first slot with the descriptor, as client or upstream |
| Worker.WorkerProcess.HandleClientRead | src/worker.c:129-221 | Every failing outcome closes the connection; a connect moves it to CONNECTING_UPSTREAM with its new descriptor |
| Worker.WorkerProcess.HandleUpstreamWritable | src/worker.c:223-242 | Socket error closes, a successful write moves on, otherwise nothing changes |
| Worker.WorkerProcess.HandleUpstreamReadable | src/worker.c:244-304 | Data and end close, EAGAIN waits, a hard error frees the slot without counting it off |
| Worker.WorkerProcess.OnEvent | src/worker.c:306-341 | One event on the pool refines one step of the state machine |
| Worker.WorkerProcess.WorkerRun | src/worker.c:401-428 | The loop over rounds of events, left when draining with no active connection |
| Pool.StepKeepsInv | src/worker.c:306-341 | Every event keeps: slots in a legal state, no descriptor in two slots, every open descriptor accounted for, counter = occupied slots + hard errors; while draining no slot is filled |
| Pool.ActiveIsHeldPlusHardErrors | src/worker.c:93-109 | Over every event sequence the counter is the occupied slots plus the hard read errors; it is 0 exactly when both are |
| Pool.OwnerIsUnique | src/worker.c:111-118 | With each event handled in one step: in every reachable pool the lookup returns the only slot with the descriptor; READING_REQ has no upstream, the other states a distinct open one |
| Pool.ClosesOnlyItsOwn | src/worker.c:223-304 | With each event handled in one step, it closes only descriptors of the connection it is for |
| Outcomes.RequestOutcome | src/worker.c:129-221 | A readable event on a connection whose request is awaited: connected, it waits for its new upstream; otherwise its slot is free, its descriptor closed, the counter one lower, every other slot unchanged |
| Outcomes.ConnectOutcome | src/worker.c:223-242 | The same for an event on a connection that waits for its upstream: ended, moved on, or untouched |
| Outcomes.AnswerOutcome | src/worker.c:244-304 | And for one that waits for the answer: ended and counted off, ended and not counted off, or untouched |
| Outcomes.NothingHappens | src/worker.c:306-341 | An event for no connection, or one its connection does not wait for, changes nothing |
| Outcomes.AcceptOutcome | src/worker.c:306-328 | An accept takes the first free slot, or loses its descriptor; while draining it does nothing |
| Outcomes.TakenAreHeldOrEnded | src/worker.c:306-341 | Over any run every connection taken on is still held, or an outcome that ends it has come in: the numbers add up |
| Pool.LostOnlyWhenFull | src/worker.c:315-328 | An accepted descriptor is lost, open for ever, exactly when every slot is taken |
| Pool.PoolCanOverflow | src/worker.c:315-328 | The run of 1025 accepts that loses one |
| Threads.TwoClosesAreOneStep | src/worker.c:231-233 | Undisturbed, closing the upstream descriptor and then the whole connection is one step of the state machine |
| Threads.ClosesTwiceIff | src/worker.c:231-233 | Exactly a failed connect and the end of an answer make a handler close twice |
| Threads.SecondCloseIff | src/worker.c:104-107 | The second close of an upstream descriptor leaves every descriptor with its owner if and only if the health thread does not hold that number by then |
| Threads.OwnershipIff | src/health.c:21-33 | Over every interleaving of events and probes, each open descriptor has one owner after every handler if and only if no second close ever hits a number the health thread holds |
| Threads.ProbeClosesAClient | src/health.c:21-33 | A run in which it does, and the probe then closes a client's connection |
| Pool.DrainingNeverGrows | src/worker.c:308-313 | Over any run of events while draining the occupied slots never increase |
| Pool.LeavesIff | src/worker.c:401-428 | The worker leaves its loop if and only if, at the end of some round, a newer restart is under way, no slot is occupied and no hard read error ever happened |
| Pool.DrainedHasClosedEverything | src/worker.c:418-422 | A drained worker has closed all it opened except descriptors lost to a full pool |
| Pool.HardErrorMeansNoDrain | src/worker.c:295-302 | After one hard read error a worker never drains again |
| Pool.CounterCanBeStuck | src/worker.c:295-302 | Four events that leave every slot free and the counter at 1 |
| Restart.StepKeepsInv | src/master.c:188-262 | Every step of master or worker, in any interleaving, keeps the protocol invariant |
| Restart.IdleIsUniform | src/master.c:188-262 | Whenever the master is in its main loop the flag is down, every live worker is in its table, and all that loaded a generation hold the current one |
| Restart.CurrentNeverDrains | src/worker.c:395-422 | Until the next hangup a worker that holds the current generation, or has yet to load one, never drains |
| Restart.DrainIsStable | src/master.c:199-241 | Once a worker's drain condition holds it holds until the worker is gone |
| Restart.WhoDrains | src/master.c:199-241 | While the flag is up exactly the workers with an older generation drain |
| Restart.DrainingAdmitsNoMore | src/worker.c:308-315 | A draining worker takes on at most the one connection it had already decided to accept |
| Restart.DrainedHeldNothing | src/worker.c:418-422 | In every reachable state a worker that left by itself had its counter at zero and held no connection |
| Polls.PollingGoesOnIff | src/master.c:216-230 | Behind n whole polls that each looked at every old worker and saw one alive, polling goes on if and only if n is below 30 and one poll more saw one alive; if that poll saw none, all old workers are gone |
| Polls.KillsAfterThirtyPolls | src/master.c:216-239 | The master kills a live worker only after thirty whole polls since it started polling, each with a look at every old worker and one seen alive |
| Histories.GenerationIsHangups | src/master.c:195-199 | The generation counts the restarts announced |
| Histories.WorkersRemember | src/worker.c:308-422 | A worker's record is the generation there was when it loaded one and the flag as it last looked |
| Histories.HeldIsTakenMinusEnded | src/worker.c:308-328 | What a worker holds is what it took on minus what ended; it takes on a connection unless it saw the flag up just before and the generation is newer than its own |
| Histories.LeavesIffRunSays | src/worker.c:401-422 | Without the worker's variables: it leaves by itself if and only if it looks at a newer generation, having seen the flag up just before, when all it took on has ended, none by a hard read error |
| Histories.WorkerIsNeverStuck | src/worker.c:401-428 | A live worker always has a next step other than a crash |
| Endings.EndsIff | src/master.c:216-239 | Over any run, a worker, there already or forked later, ends killed, drained or crashed with n connections if and only if some step is such an end for it while it is live and holds n connections |
| Endings.ConnectionsCutIff | src/master.c:216-239 | A restart cuts n connections of a worker if and only if, after thirty whole polls that each saw an old worker alive, the master kills it while it is live and holds n connections |
| Endings.DrainedIff | src/worker.c:402-422 | A worker leaves by itself if and only if it looks at a newer generation, having seen the flag up and with its counter at zero |
| Endings.CounterIsHeldPlusErrors | src/worker.c:295-302 | In every run from the start a worker's counter is the connections it holds and every hard read error it had |
| Endings.NoDrainAfterHardError | src/worker.c:295-302 | So a worker that ever had a hard read error never leaves by itself, though it may hold nothing |
| Endings.DrainedFromStartIff | src/worker.c:402-422 | Without the counter: it leaves by itself if and only if at some step it looks at a newer generation, having seen the flag up, holding no connection and never having had a hard read error |
| Endings.StuckCounterIsKilled | src/master.c:231-239 | A run from the start in which a worker with a stuck counter is killed though it holds nothing |
| Endings.ConnectionsCanBeCut | src/master.c:231-239 | A run from the start in which an old worker with an open connection is killed after the last poll |
| Endings.GracefulRestart | src/master.c:188-262 | A run from the start through every kind of step but a hard read error: a worker serves a connection and drains, the restart ends, the new worker crashes and is replaced |
| Restart.RestartReplacesAll | src/master.c:206-241 | When a restart is over, every worker there was when it was announced is gone |
| Restart.LateLoaderIsKilled | src/worker.c:393-408 | An old worker that loads its generation after the announcement never drains: it ends killed or crashed, even if idle |
| Endings.IdleLateLoaderIsKilled | src/worker.c:393-408 | A run from the start in which such a worker, which never held a connection, is killed |
| Restart.RestartIsBounded | src/master.c:199-245 | A restart takes the master at most 33 steps per worker plus 34, and it never lacks a next step |

## Left out

- Sockets, epoll, fork, mmap, signals, threads and logging (src/acceptor.c, src/epoll_loop.c, src/proxy.c, src/log.c, src/main.c): replaced by outcomes of events and protocol steps.
- Static files, splicing, the blacklist scan, the generic connection pool and the INI reader (src/static_file.c, src/zerocopy.c, src/blacklist.c, src/connection.c, src/config.c): the blacklist verdict and the configured headers are inputs; the config reader hands over at most 32 pairs of at most 127 bytes, the model allows any list.
- The shared-memory copies of the configuration (src/master.c:94-125): no worker reads them.
- Which configuration a worker runs with: a worker respawned from the main loop gets the configuration the master started with (src/master.c:252), not the reloaded one.
- Data races on the balancer between the health thread and a pick: each pick and each probe update is one step. The two threads' use of descriptors is in Threads.
- Pool.OwnerIsUnique: each event is one step, with no other thread in between; Threads.OwnershipIff says what the health thread can do to that.
- Pool.ClosesOnlyItsOwn: the same.
- RateLimit.LimiterIsBest: only for an address the table holds at all its calls; in a full table any other address passes (RateLimit.VerdictIsOwn).
- Endings.ConnectionsCutIff: a connection accepted into a full pool, which no slot serves, is not among those held (Pool.LostOnlyWhenFull says when that happens); it ends with the worker, however that ends.
- FullTables.RewriteTwiceIff: only without configured headers; with them, Idempotence.RewriteIsIdempotentIff covers the tables with room for every header.
- The write to the upstream (src/worker.c:237): it is taken to send the whole buffer. The code moves on after a partial write too, and then the upstream has only the first part of what was printed.
- Overflow of C `int` in weights, counters, lengths and `atoi`; rounding of `double` in the limiter; failure of memory allocation.
- Null pointers passed to the header, serializer and rewrite functions; the serializer's zero-length buffer is the case of a request that does not fit.
- The check for 100 headers in the parser (src/http_parser.c:90-93): it comes before a table limit of 32 and never fires. The test for an empty choice in a pick (src/upstream.c:54) never fires either.
- Fields that nothing modelled reads: the balancer's name and `cur_weight`, a slot's request, response and log fields. The request buffer of a slot appears only in Dispatch.
- The health flag is a boolean; the code stores the int it is given.
- Conformance to RFC 7239 and to the Via rules of RFC 9110: the code replaces Via and does not emit Forwarded, although README.md:14 claims RFC 7239.
- Failure of `fork` and of `waitpid` in the master, and a configuration that cannot be reloaded: the master keeps its state.
- The unused connection states WRITING_UPSTREAM, WRITING_CLIENT and CLOSING (include/nexus_connection.h): src/worker.c never sets them.
- Dispatch.HandleRequest: the address is text for the limiter and bytes for the rewrite; the model takes both as given and does not relate them.
- Restart.RestartIsBounded: counts the master's steps, not seconds; whether a worker gets to run is up to the scheduler.

# fdns: query admission and DNS-over-HTTPS transport, in Dafny

fdns is a DNS proxy. It takes queries from the local network, filters
them, and answers them from its cache or sends them on, either to a
plain-text forwarder or to a DNS-over-HTTPS (DoH) resolver over TLS.
This project models and proves two sequential parts of it.

- **Query admission** (`src/fdns/dns.c`, module `Dns`). `dns_parser`
  decides where a raw query goes:
  - `DEST_DROP`;
  - `DEST_LOCAL`, which also hands back a buffer: the query rewritten in
    place into NXDOMAIN, or the cached reply;
  - `DEST_FORWARDING`;
  - `DEST_SSL`.

  On the way it updates the `rx`, `drop`, `cached` and `fwd` counters and
  the cache's fill slot. The model has three parts:
  - `Dns.Decide` is the decision table, as a function of the packet, the
    configuration and the outside services.
  - `Dns.Gateway.Parse` models `dns_parser` imperatively, as a method on a
    class that holds the counters and the slot. It is proved to take
    exactly the route `Dns.Decide` gives.
  - A set of lemmas states the ordering and side-effect properties of the
    routes. The keepalive packet of `dns_keepalive` is checked byte by byte.
- **DoH transport** (`src/fdns/ssl.c`, module `Ssl`). It covers:
  - the ordered trust-store search `get_cert_file`;
  - the CLOSED/OPEN session that `ssl_open` and `ssl_close` drive;
  - the HTTP exchange of `ssl_rxtx_dns`.

  The exchange builds the request, writes it with one retry and reads with
  one retry. It then checks for "200 OK" and the header terminator, reads
  Content-Length ignoring case, bounds the total by MAXBUF, reads the rest
  of the body, copies the answer, and acts on the decoder's verdict. The
  class `Ssl.Transport` holds the module-level state of ssl.c: `ssl_state`,
  `ctx`, `bio` and `ssl`. Its methods are proved against the function
  `Ssl.Rxtx`, and lemmas about `Rxtx` state what the exchange promises.
- **Libc string routines** (module `Bytes`): the C string of a buffer,
  `strstr`, `strcasestr`, and the `%d` conversion of `sscanf`, as far as
  ssl.c relies on them.
- **Source bugs** (module `SslAsWritten`): four places where ssl.c as
  written departs from what it evidently intends. They are listed under
  "## Findings". The rest of the model uses the intended behaviour.

How the outside world appears in the model:
- **Parameters.** These are supplied as inputs:
  - the configuration flags: `arg_allow_all_queries`, `arg_ipv6`,
    `arg_nofilter`, `arg_fallback_only` and `arg_certfile`;
  - the constants MAXBUF, CACHE_NAME_LEN, CACHE_TTL_ERROR and
    `arg_cache_ttl`.

  fdns.h is not part of this model.
- **The wire decoder.** `lint_header` and `lint_question` are represented
  by the function values of `Dns.Decoder`. `lint_rx`, `lint_error` and
  `lint_err2str` are represented by a function from the answer bytes to
  `Ssl.RxVerdict`.
- **Filtering and routing services.** The whitelist, `filter_blocked`,
  `cache_check` and `forwarder_check` are the fields of `Dns.Services`.
  `cache_set_name` is the gateway's `slot` field. `cache_set_reply` calls
  are recorded in the transport's `stores` log.
- **The resolver.** Its side of the connection is a script:
  - each `BIO_write` either succeeds or fails with a `BIO_should_retry`
    answer;
  - each `BIO_read` either delivers a chunk of bytes or fails with a
    `BIO_should_retry` answer.

  A read asking for `n` bytes takes at most `n` bytes of a chunk and leaves
  the rest for the next read. The requests written are recorded in `sent`.
- **OpenSSL.** Whether a trust store loads, whether the connect succeeds
  and whether the certificate verifies are all parameters of
  `Ssl.Transport.Open`.

In these details the model follows the code:
- "200 OK" is searched for anywhere in the first read, up to its first
  NUL. It is not checked in the status line only.
- The answer copied is the last Content-Length bytes read. That is the
  body after the header, unless the first read already holds more than
  header and body (see `Ssl.FirstReadOverrun`).
- A null-routed answer gets byte 3 set to the value 3. This sets the
  NXDOMAIN code and also clears the RA and Z bits.
- The fill slot is cleared only once a packet has passed the exact-length
  check. A packet dropped by the header, count or length checks leaves the
  slot as it was.

## Model

| member | source | states |
|---|---|---|
| Bytes.FindFromFacts | src/fdns/ssl.c:244-253 | the search from an offset returns the first occurrence at or after it, and None only when the pattern occurs nowhere after it |
| Bytes.FindFacts | src/fdns/ssl.c:244-253 | `strstr` returns an occurrence with none before it, or None when the pattern occurs nowhere |
| Bytes.FindExtends | src/fdns/ssl.c:244-253 | once a pattern occurs in a text, appending bytes to the text does not change where `strstr` finds it |
| Bytes.CStrFacts | src/fdns/ssl.c:241 | the C string of a buffer is a prefix of it with no NUL inside, and is followed by the NUL when shorter than the buffer |
| Bytes.CStr | src/fdns/ssl.c:241 | the C string of a buffer is no longer than the buffer |
| Bytes.CStrOfPrefix | src/fdns/ssl.c:241 | the C string of a NUL-free text followed by more bytes is that text followed by the C string of the rest |
| Bytes.CaselessMatches | src/fdns/ssl.c:268 | a pattern occurs ignoring case exactly where the lower-cased pattern occurs in the lower-cased text |
| Bytes.FindCaselessFacts | src/fdns/ssl.c:268 | `strcasestr` returns the first caseless occurrence, or None when there is none |
| Bytes.DigitRunFacts | src/fdns/ssl.c:277 | the digits `%d` consumes are the longest run of digits at the start of the text |
| Bytes.DecimalValue | src/fdns/ssl.c:277 | the decimal text of n has the value n |
| Bytes.ScanDecimal | src/fdns/ssl.c:277 | `%d` recovers n from its decimal text followed by any non-digit: the round trip of print and scan |
| Bytes.ScanInt | src/fdns/ssl.c:277 | `%d` converts a text that starts with a digit, to a value of 0 or more |
| Ssl.GetCertFile | src/fdns/ssl.c:102-121 | the configured bundle if set; else the first path of the list, in list order, that exists, with every earlier one missing; None only when none exists |
| Ssl.Transport.constructor | src/fdns/ssl.c:26-29 | the session starts CLOSED with no context, no BIO and no SSL |
| Ssl.Transport.Open | src/fdns/ssl.c:123-174 | requires CLOSED; a no-op under fallback-only; the context is built at most once; a trust store that fails to load is the terminal failure; a connect or verify failure stays CLOSED; the outcome is FallbackOnly exactly under fallback-only, and Opened, with the state OPEN, exactly when the trust store loads, the connect succeeds and verify passes |
| Ssl.Transport.Close | src/fdns/ssl.c:176-187 | from any state, ssl becomes NULL and the state CLOSED |
| Ssl.WriteRetry | src/fdns/ssl.c:214-224 | at most two write attempts, the second exactly when the first fails with should_retry; success exactly when one attempt succeeds |
| Ssl.Transport.BioWrite | src/fdns/ssl.c:215 | one BIO_write: the data is recorded as sent, one script step is used, and the retry answer is reported on failure |
| Ssl.Transport.WriteRequest | src/fdns/ssl.c:214-224 | writes as `Ssl.WriteRetry` says, sending the request once per attempt |
| Ssl.ReadOnce | src/fdns/ssl.c:229 | one read delivers between 1 and n bytes |
| Ssl.ReadOnceConserves | src/fdns/ssl.c:229 | a read takes its bytes from the front of the resolver's stream and loses or invents none |
| Ssl.Transport.BioRead | src/fdns/ssl.c:229 | one BIO_read places the delivered bytes at the offset and changes no other byte; a failure changes no byte |
| Ssl.ReadRetry | src/fdns/ssl.c:229-239 | at most two read attempts, delivering between 1 and n bytes |
| Ssl.RetriesOnlyOnRetry | src/fdns/ssl.c:229-239 | the second read attempt happens exactly when the first fails with should_retry |
| Ssl.ReadRetryConserves | src/fdns/ssl.c:229-239 | a read with retry takes its bytes from the front of the stream |
| Ssl.Transport.ReadWithRetry | src/fdns/ssl.c:229-239 | reads as `Ssl.ReadRetry` says, placing the bytes at the offset |
| Ssl.ReadMore | src/fdns/ssl.c:293-312 | the read-more loop, if it completes, ends holding exactly `hlen + datalen` bytes, or adds nothing when enough are already held |
| Ssl.ReadMoreConserves | src/fdns/ssl.c:293-312 | the bytes the loop adds are exactly the next bytes of the resolver's stream |
| Ssl.ReadMoreCases | src/fdns/ssl.c:293-312 | one iteration either fails for good or adds a non-empty piece of the stream that does not go past the total |
| Ssl.Transport.ReadBody | src/fdns/ssl.c:293-312 | the loop on the buffer: it succeeds exactly when `Ssl.ReadMore` does, the added bytes land right after the bytes held, and the earlier bytes are untouched |
| Ssl.ParseHead | src/fdns/ssl.c:241-280 | a framed header is between 4 bytes long and the length of the first read |
| Ssl.ParseHeadFacts | src/fdns/ssl.c:243-280 | "200 OK" is missing exactly when the C string lacks it; a framed header ends at the first "\r\n\r\n" and contains a caseless "Content-Length: " before the NUL stored in that terminator |
| Ssl.ParseHeadCases | src/fdns/ssl.c:243-280 | each outcome exactly: the terminator is missing exactly when the C string has "200 OK" but no "\r\n\r\n"; the length is missing exactly when it has both but no caseless "Content-Length: " before the NUL stored in the terminator; the header is framed exactly when it has all three |
| Ssl.ParseHeadRoundTrip | src/fdns/ssl.c:241-280 | a NUL-free header with "200 OK", its first "\r\n\r\n" at p and its first caseless "Content-Length: " followed by the decimal text of n and a non-digit is framed with header length p + 4 and Content-Length n, whatever body follows |
| Ssl.FramedBy | src/fdns/ssl.c:243-280 | once the three searches and the conversion have found their values, the header is framed with those values |
| Ssl.FrameOf | src/fdns/ssl.c:277-291 | a body is read only for a positive length whose total with the header stays below MAXBUF |
| Ssl.FrameOfFacts | src/fdns/ssl.c:277-291 | the body is framed exactly when the header parses with a positive length and a total below MAXBUF; the length is "empty" exactly when it is 0 or less; "too long" exactly when the total reaches MAXBUF |
| Ssl.FirstReadLimit | src/fdns/ssl.c:229-241 | the first read asks for fewer than MAXBUF bytes, so the NUL after it stays inside the buffer |
| Ssl.Receive | src/fdns/ssl.c:229-351 | the value returned is between 0 and MAXBUF-1; it is positive only for a decoded answer of that length; an answer is copied exactly when it was decoded; what is cached is the answer copied |
| Ssl.AfterHead | src/fdns/ssl.c:277-351 | the same bounds once the header is parsed, and such an exchange never ends in a write or first-read error |
| Ssl.AfterHeadReadMoreError | src/fdns/ssl.c:293-312 | a read-more loop that fails for good ends the exchange with 0, nothing copied and nothing cached |
| Ssl.AfterHeadDecoded | src/fdns/ssl.c:315-347 | after a completed loop, the answer is the last `datalen` bytes held, and the verdict on it decides what is returned and cached |
| Ssl.AnswerInBuffer | src/fdns/ssl.c:315 | after the loop, the `datalen` bytes at `buf + len - datalen` are the last `datalen` bytes of what the first read and the loop delivered |
| Ssl.Rxtx | src/fdns/ssl.c:190-352 | the value returned is below MAXBUF and positive only for a decoded answer of that length; at most two writes; no write at all exactly when the session is not open |
| Ssl.Transport.Exchange | src/fdns/ssl.c:190-352 | the request sent is the template followed by exactly the `cnt` query bytes, once per write attempt, with `cnt < MAXBUF - len` required; the returned value, the scripts, the cache stores, the session state and the caller's buffer are as `Ssl.Rxtx` gives |
| Ssl.Transport.ReceiveReply | src/fdns/ssl.c:229-351 | the reading half on the buffers, as `Ssl.Receive` gives, closing the session exactly on the `errout` exits |
| Ssl.Transport.ReceiveBody | src/fdns/ssl.c:241-351 | once the first read is in the buffer and the header checks are done, the exchange goes on as `Ssl.AfterHead` gives, closing the session exactly on the `errout` exits |
| Ssl.Transport.ReadAnswer | src/fdns/ssl.c:293-351 | the read-more loop and the delivery, as `Ssl.AfterHead` gives |
| Ssl.Transport.CopyOut | src/fdns/ssl.c:315 | memcpy: the first n bytes of msg become the source bytes and the rest of msg is untouched |
| Ssl.Transport.Deliver | src/fdns/ssl.c:315-347 | NXDOMAIN is cached with CACHE_TTL_ERROR and a clean answer with arg_cache_ttl, both returning the length; a null-routed error gets msg[3] = 3; other errors return 0; msg holds the answer |
| Ssl.ClosedSessionIdle | src/fdns/ssl.c:196-197 | without an open session nothing is written or read and 0 is returned |
| Ssl.FailedAttemptsClose | src/fdns/ssl.c:214-240 | the write fails exactly when its final attempt fails, and the first read exactly when both of its attempts fail; either closes the session and returns 0 with nothing copied or cached |
| Ssl.HeaderFailures | src/fdns/ssl.c:243-291 | a missing "200 OK", a missing terminator, a missing Content-Length or a total of MAXBUF or more closes the session and returns 0; a length of 0 returns 0 without closing |
| Ssl.DecodedOutcomes | src/fdns/ssl.c:325-347 | the four outcomes of the verdict: NXDOMAIN is cached with the error TTL; clean is cached with the positive TTL; null-routed is patched and not cached; any other error returns 0 and is not cached; none of them closes the session |
| Ssl.AnswerIsBody | src/fdns/ssl.c:293-315 | when the first read does not go past the body, the answer is the Content-Length bytes after the header in what the resolver sent |
| Ssl.FirstReadOverrun | src/fdns/ssl.c:293-315 | when the first read holds more than header and body, nothing more is read and the answer is the last Content-Length bytes of that read |
| Ssl.ResponseBody | src/fdns/ssl.c:229-315 | for the whole response: an answer is copied only after a first read whose header frames a body, and, when that read does not go past the body, it is the Content-Length bytes after the header in the resolver's byte stream |
| Ssl.BodyAfterFirstRead | src/fdns/ssl.c:277-315 | after a first read, an answer is copied only when the header frames a body, and it is then the Content-Length bytes after the header when that read does not go past the body |
| Dns.NxdomainOf | src/fdns/dns.c:24-28 | byte 2 becomes 0x81 and byte 3 becomes 0x83; every other byte and the length are unchanged |
| Dns.BuildResponseNxdomain | src/fdns/dns.c:24-28 | in place on the array, as `Dns.NxdomainOf` |
| Dns.Screen | src/fdns/dns.c:38-79 | an accepted packet has the decoded header and question, with QR and the 0x7800 bits clear, counts {1,0,0,0} and the question ending at the last byte; a structural rejection is never the type check |
| Dns.TypePolicy | src/fdns/dns.c:84-131 | the query goes on exactly when allow-all is on, the type is A, or the type is AAAA with IPv6 on; otherwise it is answered with NXDOMAIN or dropped: PTR gets NXDOMAIN exactly with allow-all off, and dropped exactly when the type is not A, AAAA or PTR |
| Dns.NameChecks | src/fdns/dns.c:136-163 | a name check that stops a query answers NXDOMAIN; the query goes on exactly when the whitelist does not block it, the block lists do not (or filtering is off) and its name has a '.' |
| Dns.Routing | src/fdns/dns.c:168-198 | a query that passed goes to the cache, the forwarder or the resolver; a cache hit needs a name short enough for the cache and returns what `cache_check` found |
| Dns.Decide | src/fdns/dns.c:31-205 | a structural drop happens exactly when the screen rejects the packet; a query reaches the cache, forwarder or resolver only if it was accepted and its name has a '.' |
| Dns.StatsAfter | src/fdns/dns.c:94-204 | `rx` is kept or taken back by one; `drop`, `cached` and `fwd` never decrease and together grow by at most one |
| Dns.SlotAfter | src/fdns/dns.c:82-183 | a structurally rejected packet leaves the slot alone; an accepted one leaves it empty or holding its own name and address family |
| Dns.Gateway.Parse | src/fdns/dns.c:31-205 | the destination, the buffer returned, the length, the counters, the fill slot and the input buffer after the call are those of the route `Dns.Decide` takes |
| Dns.ScreenOrder | src/fdns/dns.c:38-79 | each structural check rejects in turn; a packet is accepted exactly when the header decodes, QR and the 0x7800 bits are clear, the counts are {1,0,0,0}, the question decodes and it ends at the last byte |
| Dns.StructuralDrop | src/fdns/dns.c:38-79 | a rejected packet gives DEST_DROP, no buffer, no counter change, and the fill slot and buffer unchanged |
| Dns.TypeAPassesOn | src/fdns/dns.c:87-89 | a type A query always goes on to the name checks, whatever allow-all says |
| Dns.OtherTypesDropped | src/fdns/dns.c:108-131 | with allow-all off, a type other than A, AAAA and PTR gives DEST_DROP with no NXDOMAIN and no counter change, the slot already cleared |
| Dns.AaaaWithIpv6PassesOn | src/fdns/dns.c:91-99 | an AAAA query with IPv6 on goes on to the name checks, whatever allow-all says |
| Dns.PtrAnsweredNxdomain | src/fdns/dns.c:102-105 | with allow-all off, PTR gives NXDOMAIN as DEST_LOCAL in the input buffer, with one more drop |
| Dns.AaaaWithoutIpv6 | src/fdns/dns.c:91-99 | with allow-all and IPv6 off, AAAA gives NXDOMAIN as DEST_LOCAL with `rx` one lower and `drop` unchanged |
| Dns.NameCheckOrder | src/fdns/dns.c:136-163 | the whitelist comes first, then the block lists, then the dotless check; each ends in NXDOMAIN with one more drop |
| Dns.RoutedPassedChecks | src/fdns/dns.c:136-198 | a query reaches the cache, forwarder or resolver only after passing the type policy, the whitelist, the block lists and the dotless check, so its name contains a '.' |
| Dns.CacheHitRoute | src/fdns/dns.c:169-178 | a cache hit happens exactly when the name is at most CACHE_NAME_LEN and `cache_check` finds a reply; it returns that reply as DEST_LOCAL with one more cached count |
| Dns.MissRoute | src/fdns/dns.c:188-198 | after a miss, a forwarder match gives DEST_FORWARDING with one more forwarded count; otherwise DEST_SSL; neither returns a buffer |
| Dns.SlotStaged | src/fdns/dns.c:82-183 | once past the length check, the fill slot is cleared, and it holds the name and address family exactly when the query passed the type policy and the name checks, is short enough for the cache and missed it |
| Dns.BufferOnlyForNxdomain | src/fdns/dns.c:200-204 | only the NXDOMAIN routes touch the input buffer, and then only bytes 2 and 3; the length never changes |
| Dns.WireHeader | src/fdns/dns.c:210-214 | every header field read from the wire, the id and the four counts, is a 16-bit value |
| Dns.KeepaliveWords | src/fdns/dns.c:210-214 | the keepalive packet is 33 bytes with id 0, flags 0x0100 and counts {1,0,0,0} |
| Dns.KeepaliveTypeClass | src/fdns/dns.c:210-214 | the keepalive question asks for type A, class IN, in its last four bytes |
| Dns.KeepaliveHeader | src/fdns/dns.c:210-214 | the keepalive header passes the flag and count checks of `dns_parser` |
| Dns.KeepaliveName | src/fdns/dns.c:210-213 | the keepalive question names www.example.com in the wire format |
| Dns.KeepaliveScreened | src/fdns/dns.c:38-79 | a decoder that reads the keepalive header as laid out and finds its 21-byte question lets it through every structural check |
| Dns.DnsKeepalive | src/fdns/dns.c:207-218 | the keepalive packet is exchanged over the session: the request sent is the template followed by the 33 bytes, and the session and cache change as `Ssl.Rxtx` gives |
| SslAsWritten.NulPastEndAsWritten | src/fdns/ssl.c:229-241 | as written, a first read can deliver MAXBUF bytes, putting the NUL one past the buffer |
| SslAsWritten.ReadMoreAsWritten | src/fdns/ssl.c:293-312 | the loop as written, with the retry into `buf`: it ends with success only once len reaches the total, fails with len still short of it, never lowers len and keeps the buffer's size |
| SslAsWritten.StallRetryAsWritten | src/fdns/ssl.c:293-315 | as written, a stall then a retry overwrites the header and the answer copied is stale bytes; len can also pass MAXBUF |
| SslAsWritten.MinusFiveScans | src/fdns/ssl.c:277 | `%d` reads "-5" as -5 |
| SslAsWritten.CopyOfAsWritten | src/fdns/ssl.c:277-315 | the length checks as written: quiet exactly for a length of 0; refused when the 32-bit total reaches MAXBUF; a copy only when the bytes read cover the 32-bit total, starting at len - datalen, of datalen bytes for a length in int range |
| SslAsWritten.NegativeLengthAsWritten | src/fdns/ssl.c:277-315 | as written, Content-Length -5 passes the checks and memcpy gets a size of 2^64 - 5, starting past the bytes read |
| SslAsWritten.NegativeLengthQuiet | src/fdns/ssl.c:277-279 | the intended handling: a length that is not positive ends the exchange like 0, without closing and before any copy |
| SslAsWritten.Int32 | src/fdns/ssl.c:283 | the `int` total is the sum wrapped into the 32-bit range: in [-2^31, 2^31) and equal to the sum modulo 2^32 |
| SslAsWritten.IntMaxScans | src/fdns/ssl.c:277 | `%d` stores INT_MAX from its decimal text followed by any non-digit |
| SslAsWritten.OverflowAsWritten | src/fdns/ssl.c:283-315 | as written, a 38-byte header with Content-Length INT_MAX wraps the total negative, so the MAXBUF bound and the loop are passed and memcpy copies INT_MAX bytes starting before the buffer |
| SslAsWritten.HugeLengthRefused | src/fdns/ssl.c:283-291 | the intended handling: a length of MAXBUF or more is refused as too long and closes the session |

## Left out

- OpenSSL internals are results given as parameters. These are
  `SSL_CTX_new`, the `BIO_*` calls, `SSL_set_mode`, the host name and SNI
  setup, `SSL_shutdown`, `SSL_free` and `SSL_get_verify_result`. The
  library's own state is not modelled.
- `exit(1)` on a trust store that fails to load (ssl.c:135-144) becomes the
  terminal outcome `TrustStoreMissing`. The model does not stop the process.
- `ssl_alert_callback` is not modelled; it only prints.
- `ssl_status_check` is not modelled; it polls a socket with `select`.
- `ssl_init` is not modelled; it is library initialisation.
- All logging, `printf`, `print_mem` and the `arg_debug` output are left out.
- The `stat()` probe of `get_cert_file` is the predicate `onDisk`.
- The internals of these services are not modelled, because their sources
  are not part of this model; they are oracles:
  - the wire decoder (`lint_*`);
  - the whitelist and `filter_blocked`;
  - the cache (`cache_check`, `cache_set_name`, `cache_set_reply`);
  - the forwarder.
- The `sprintf` of the request template is not modelled. The template as
  formatted is an opaque byte sequence given to `Ssl.Transport.Exchange`.
- The resolver record `srv` (its host, SNI name and request template) is not
  modelled; server selection lives outside ssl.c.
- The `assert` calls that check for NULL are not modelled; arrays are never
  null in Dafny.
- The fatal `assert(ssl_state == SSL_CLOSED)` of `ssl_open` and
  `assert(cnt < MAXBUF - len)` of `ssl_rxtx_dns` become `requires` clauses.
- Dns.Gateway.Parse: assumes that `cache_check` sets `*lenptr` to the reply's
  length on a hit and leaves it alone on a miss. cache.c is not part of
  this model.
- Dns.Gateway.constructor: setup only. The `stats` counters and the cache's
  fill slot are globals declared outside dns.c, which is not part of this
  model; the constructor starts them at 0 and empty.
- Dns.StatsAfter: the counters are unbounded integers, so the wrap-around
  of the C counters is not modelled.
- Bytes.ScanInt: values outside the range of a C `int` are not truncated,
  because `sscanf` leaves that case undefined.
- Bytes.CStr: its own contract states only the length; that the C string is
  a NUL-free prefix ended by the NUL is stated by `Bytes.CStrFacts`.
- Bytes.Find and Bytes.FindCaseless: what they return is stated by
  `Bytes.FindFacts` and `Bytes.FindCaselessFacts`, not by their own
  contracts.
- Ssl.FrameOf: the total is an unbounded sum, the intended behaviour; the
  32-bit wrap-around of ssl.c:283 is modelled only in
  `SslAsWritten.CopyOfAsWritten` (see "## Findings").
- Ssl.Transport.Exchange: the caller's buffer must hold MAXBUF bytes. Only
  the copied answer and byte 3 are written to it.
- Concurrency is out of scope; fdns calls these functions from one thread
  per session.

## Findings

| source | as written | input that shows it | evidently intended | confidence | as-written member | corrected member |
|---|---|---|---|---|---|---|
| src/fdns/ssl.c:229-241 | both attempts of the first read ask for MAXBUF bytes, then `buf[len] = '\0'` | a resolver that has MAXBUF bytes ready: len = MAXBUF, and the NUL is written to buf[MAXBUF], past the end of `buf[MAXBUF]` | read at most MAXBUF - 1 bytes so that the terminator fits | high, not executed | SslAsWritten.NulPastEndAsWritten | Ssl.FirstReadLimit |
| src/fdns/ssl.c:302 | after a stall with should_retry, the retry reads up to MAXBUF bytes into `buf`, not `buf + len`, while len still grows by the count read | header of 4 bytes announcing 2, then a stall, then the bytes [1, 2]: they overwrite the header and the answer copied is the stale [0, 0]; with 8 bytes ready, len reaches 12 in a buffer of 8 | retry the same read, into `buf + len` for `totallen - len` bytes | high, not executed | SslAsWritten.StallRetryAsWritten | Ssl.ReadMoreConserves |
| src/fdns/ssl.c:277-315 | only `datalen == 0` is rejected, so a negative Content-Length passes the MAXBUF bound and skips the loop | "Content-Length: -5": memcpy(msg, buf + len + 5, (size_t)-5) | treat a length that is not positive like 0 | medium, not executed | SslAsWritten.NegativeLengthAsWritten | SslAsWritten.NegativeLengthQuiet |
| src/fdns/ssl.c:283-315 | `int totallen = (int) hlen + datalen` is computed in 32-bit `int` | "Content-Length: 2147483647" after a 38-byte header with 38 to MAXBUF - 1 bytes read: the total wraps negative, passes the MAXBUF bound, the loop is skipped, and memcpy copies 2^31 - 1 bytes from before `buf` | compute the total without overflow, so the length is refused as too long | medium, not executed | SslAsWritten.OverflowAsWritten | SslAsWritten.HugeLengthRefused |

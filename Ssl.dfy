/** The DNS-over-HTTPS transport of fdns (src/fdns/ssl.c): the trust-store
    search, the CLOSED/OPEN session, and the HTTP exchange that sends one DNS
    query to the resolver and recovers the DNS answer from the response.

    OpenSSL is not modelled. Whatever it decides arrives as a parameter
    (connect and verify results, whether a trust store loads), and the
    resolver's side of the connection is a script of BIO_write and BIO_read
    results held by the transport. */
module Ssl {
  import opened Bytes

  datatype SslState = SslClosed | SslOpen

  // ---------------------------------------------------------------
  // Trust store (get_cert_file)
  // ---------------------------------------------------------------

  /** The bundles probed, in order: Debian/Ubuntu first, then Fedora/CentOS. */
  const CERT_LIST: seq<string> := ["/etc/ssl/certs/ca-certificates.crt", "/etc/ssl/certs/ca-bundle.crt"]

  /** The directory loaded when no bundle is found. */
  const CERT_DIR: string := "/etc/ssl/certs"

  /** The first of `paths` that is on disk. */
  function FirstPresent(paths: seq<string>, onDisk: string -> bool): Option<string> {
    if paths == [] then None
    else if onDisk(paths[0]) then Some(paths[0])
    else FirstPresent(paths[1..], onDisk)
  }

  /** What get_cert_file returns: the configured bundle if there is one,
      else the first bundle of CERT_LIST on disk. */
  function CertFileChoice(certfile: Option<string>, onDisk: string -> bool): Option<string> {
    if certfile.Some? then certfile else FirstPresent(CERT_LIST, onDisk)
  }

  /** get_cert_file. `certfile` is arg_certfile; `onDisk` stands for the
      stat() probe. */
  method GetCertFile(certfile: Option<string>, onDisk: string -> bool) returns (r: Option<string>)
    ensures certfile.Some? ==> r == certfile
    ensures certfile.None? && r.Some? ==>
      exists k :: 0 <= k < |CERT_LIST| && r.value == CERT_LIST[k] && onDisk(CERT_LIST[k]) &&
        forall j :: 0 <= j < k ==> !onDisk(CERT_LIST[j])
    ensures certfile.None? && r.None? ==> forall k :: 0 <= k < |CERT_LIST| ==> !onDisk(CERT_LIST[k])
    ensures r == CertFileChoice(certfile, onDisk)
  {
    if certfile.Some? {
      return certfile;
    }
    var i := 0;
    while i < |CERT_LIST|
      invariant 0 <= i <= |CERT_LIST|
      invariant forall j :: 0 <= j < i ==> !onDisk(CERT_LIST[j])
      invariant FirstPresent(CERT_LIST[i..], onDisk) == FirstPresent(CERT_LIST, onDisk)
    {
      assert CERT_LIST[i..][1..] == CERT_LIST[i + 1..];
      if onDisk(CERT_LIST[i]) {
        return Some(CERT_LIST[i]);
      }
      i := i + 1;
    }
    return None;
  }

  // ---------------------------------------------------------------
  // The resolver's side of the connection, as a script
  // ---------------------------------------------------------------

  type Chunk = s: seq<byte> | |s| > 0 witness [0]

  /** What one BIO_write call does: it takes the request (a positive return
      value), or it fails and BIO_should_retry then answers `shouldRetry`. */
  datatype WriteEvent = Accepted | WriteFailed(shouldRetry: bool)

  /** What one BIO_read call finds: bytes from the resolver, or a failure
      (a return value <= 0) about which BIO_should_retry answers `shouldRetry`. */
  datatype ReadEvent = Received(data: Chunk) | ReadFailed(shouldRetry: bool)

  /** Every byte the resolver still has to send, in order. */
  function Stream(rs: seq<ReadEvent>): seq<byte> {
    if rs == [] then [] else (if rs[0].Received? then rs[0].data else []) + Stream(rs[1..])
  }

  lemma StreamCons(e: ReadEvent, rs: seq<ReadEvent>)
    ensures Stream([e] + rs) == (if e.Received? then e.data else []) + Stream(rs)
  {
    assert ([e] + rs)[1..] == rs;
  }

  /** The next scripted write result; an exhausted script fails for good. */
  function NextWrite(ws: seq<WriteEvent>): WriteEvent {
    if ws == [] then WriteFailed(false) else ws[0]
  }

  function Tail<T>(s: seq<T>): seq<T> {
    if s == [] then [] else s[1..]
  }

  function Repeat<T>(x: T, n: nat): (r: seq<T>)
    ensures |r| == n && forall i :: 0 <= i < n ==> r[i] == x
  {
    if n == 0 then [] else [x] + Repeat(x, n - 1)
  }

  /** The outcome of a BIO_write retried once. */
  datatype Send = Send(ok: bool, rest: seq<WriteEvent>, attempts: nat)

  /** Writing the request (ssl.c:215-224): a first attempt, and a second one
      only when the first fails and BIO_should_retry says so. */
  function WriteRetry(ws: seq<WriteEvent>): (s: Send)
    ensures 1 <= s.attempts <= 2
    ensures s.attempts == 2 <==> NextWrite(ws) == WriteFailed(true)
    ensures s.ok <==> NextWrite(ws) == Accepted || (s.attempts == 2 && NextWrite(Tail(ws)) == Accepted)
    ensures s.rest == if s.attempts == 1 then Tail(ws) else Tail(Tail(ws))
  {
    var first := NextWrite(ws);
    if first.Accepted? then Send(true, Tail(ws), 1)
    else if !first.shouldRetry then Send(false, Tail(ws), 1)
    else Send(NextWrite(Tail(ws)).Accepted?, Tail(Tail(ws)), 2)
  }

  datatype Read = Got(data: seq<byte>) | Stalled(shouldRetry: bool)

  datatype Step = Step(read: Read, rest: seq<ReadEvent>)

  /** One BIO_read of at most `n` bytes. A chunk longer than `n` is cut at
      `n` and the remainder waits for the next read; an exhausted script
      fails for good. No byte is lost or invented. */
  function ReadOnce(rs: seq<ReadEvent>, n: nat): (r: Step)
    requires n > 0
    ensures r.read.Got? ==> 0 < |r.read.data| <= n
  {
    if rs == [] then Step(Stalled(false), [])
    else
      match rs[0]
      case ReadFailed(retry) => Step(Stalled(retry), rs[1..])
      case Received(c) =>
        if |c| <= n then Step(Got(c), rs[1..])
        else
          var rest: Chunk := c[n..];
          Step(Got(c[..n]), [Received(rest)] + rs[1..])
  }

  /** A read delivers bytes from the front of the stream and keeps the rest. */
  lemma ReadOnceConserves(rs: seq<ReadEvent>, n: nat)
    requires n > 0
    ensures ReadOnce(rs, n).read.Got? ==> ReadOnce(rs, n).read.data + Stream(ReadOnce(rs, n).rest) == Stream(rs)
    ensures ReadOnce(rs, n).read.Stalled? ==> Stream(ReadOnce(rs, n).rest) == Stream(rs)
  {
    if rs != [] {
      var tail := rs[1..];
      assert Stream(rs) == (if rs[0].Received? then rs[0].data else []) + Stream(tail);
      match rs[0]
      case ReadFailed(_) =>
      case Received(c) =>
        if |c| > n {
          var rest: Chunk := c[n..];
          StreamCons(Received(rest), tail);
          assert c[..n] + (rest + Stream(tail)) == c + Stream(tail);
        }
    }
  }

  /** The outcome of a BIO_read retried once. */
  datatype Fetch = Fetch(data: Option<seq<byte>>, rest: seq<ReadEvent>, attempts: nat)

  /** Reading with one retry (ssl.c:229-239, and the read-more loop's
      retry of ssl.c:294-309 as intended, into buf + len for what is still
      missing): a second attempt only when the first fails and
      BIO_should_retry says so. */
  function ReadRetry(rs: seq<ReadEvent>, n: nat): (f: Fetch)
    requires n > 0
    ensures 1 <= f.attempts <= 2
    ensures f.data.Some? ==> 0 < |f.data.value| <= n
  {
    var a := ReadOnce(rs, n);
    if a.read.Got? then Fetch(Some(a.read.data), a.rest, 1)
    else if !a.read.shouldRetry then Fetch(None, a.rest, 1)
    else
      var b := ReadOnce(a.rest, n);
      Fetch(if b.read.Got? then Some(b.read.data) else None, b.rest, 2)
  }

  /** A second attempt is made exactly when the first fails with BIO_should_retry set. */
  lemma RetriesOnlyOnRetry(rs: seq<ReadEvent>, n: nat)
    requires n > 0
    ensures ReadRetry(rs, n).attempts == 2 <==> ReadOnce(rs, n).read == Stalled(true)
  {
  }

  lemma ReadRetryConserves(rs: seq<ReadEvent>, n: nat)
    requires n > 0
    ensures ReadRetry(rs, n).data.Some? ==> ReadRetry(rs, n).data.value + Stream(ReadRetry(rs, n).rest) == Stream(rs)
    ensures ReadRetry(rs, n).data.None? ==> Stream(ReadRetry(rs, n).rest) == Stream(rs)
  {
    ReadOnceConserves(rs, n);
    ReadOnceConserves(ReadOnce(rs, n).rest, n);
  }

  /** The outcome of the read-more loop. */
  datatype Fill = Fill(data: Option<seq<byte>>, rest: seq<ReadEvent>)

  /** `while (len < totallen)` (ssl.c:293-312): holding `len` bytes, read
      more, each read retried once and asking for exactly what is missing,
      until `total` bytes are held. The result holds the bytes added. */
  function ReadMore(rs: seq<ReadEvent>, len: nat, total: nat): (f: Fill)
    decreases total - len, 1
    ensures f.data.Some? ==> len + |f.data.value| >= total
    ensures f.data.Some? && len < total ==> len + |f.data.value| == total
    ensures f.data.Some? && len >= total ==> f.data.value == []
  {
    if len >= total then Fill(Some([]), rs) else ReadMoreFrom(rs, len, total)
  }

  /** One turn of the loop body, then the rest of the loop. */
  function ReadMoreFrom(rs: seq<ReadEvent>, len: nat, total: nat): (f: Fill)
    requires len < total
    decreases total - len, 0
    ensures f.data.Some? ==> len + |f.data.value| == total
  {
    var f := ReadRetry(rs, total - len);
    if f.data.None? then Fill(None, f.rest)
    else Prepend(f.data.value, ReadMore(f.rest, len + |f.data.value|, total))
  }

  /** The bytes `d` read before a loop that ends in `r`. */
  function Prepend(d: seq<byte>, r: Fill): Fill {
    if r.data.Some? then Fill(Some(d + r.data.value), r.rest) else r
  }

  /** The bytes the loop adds are exactly the ones it took from the stream. */
  lemma {:induction false} ReadMoreConserves(rs: seq<ReadEvent>, len: nat, total: nat)
    decreases total - len
    ensures ReadMore(rs, len, total).data.Some? ==>
      ReadMore(rs, len, total).data.value + Stream(ReadMore(rs, len, total).rest) == Stream(rs)
  {
    if len < total {
      var stalled, d, rest := ReadMoreCases(rs, len, total);
      if !stalled {
        ReadMoreConserves(rest, len + |d|, total);
        var r := ReadMore(rest, len + |d|, total);
        PrependConserves(d, r, Stream(r.rest), Stream(rest), Stream(rs));
      }
    }
  }

  /** One turn of the loop, as values: either the read fails for good, or
      it takes a non-empty `d` from the front of the stream, leaving `rest`. */
  lemma ReadMoreCases(rs: seq<ReadEvent>, len: nat, total: nat) returns (stalled: bool, d: seq<byte>, rest: seq<ReadEvent>)
    requires len < total
    ensures stalled ==> ReadMore(rs, len, total).data.None?
    ensures !stalled ==> 0 < |d| && len + |d| <= total && d + Stream(rest) == Stream(rs)
    ensures !stalled ==> ReadMore(rs, len, total) == Prepend(d, ReadMore(rest, len + |d|, total))
  {
    assert ReadMore(rs, len, total) == ReadMoreFrom(rs, len, total);
    var f := ReadRetry(rs, total - len);
    ReadRetryConserves(rs, total - len);
    stalled := f.data.None?;
    d := if stalled then [] else f.data.value;
    rest := f.rest;
  }

  lemma PrependConserves(d: seq<byte>, r: Fill, tail: seq<byte>, mid: seq<byte>, all: seq<byte>)
    requires r.data.Some? ==> r.data.value + tail == mid
    requires d + mid == all
    ensures Prepend(d, r).rest == r.rest
    ensures Prepend(d, r).data.Some? ==> Prepend(d, r).data.value + tail == all
  {
    if r.data.Some? {
      assert (d + r.data.value) + tail == d + (r.data.value + tail);
    }
  }

  /** One turn of the loop. */
  lemma ReadMoreStep(rs: seq<ReadEvent>, len: nat, total: nat, rest: seq<ReadEvent>, len': nat)
    requires len < total && ReadRetry(rs, total - len).data.Some?
    requires rest == ReadRetry(rs, total - len).rest && len' == len + |ReadRetry(rs, total - len).data.value|
    ensures ReadMore(rs, len, total) == Prepend(ReadRetry(rs, total - len).data.value, ReadMore(rest, len', total))
  {
    assert ReadMore(rs, len, total) == ReadMoreFrom(rs, len, total);
  }

  lemma ReadMoreStall(rs: seq<ReadEvent>, len: nat, total: nat)
    requires len < total && ReadRetry(rs, total - len).data.None?
    ensures ReadMore(rs, len, total) == Fill(None, ReadRetry(rs, total - len).rest)
  {
    assert ReadMore(rs, len, total) == ReadMoreFrom(rs, len, total);
  }

  lemma ReadMoreDone(rs: seq<ReadEvent>, len: nat, total: nat)
    requires len >= total
    ensures ReadMore(rs, len, total) == Fill(Some([]), rs)
  {
  }

  /** The loop so far has added `added`, and what is left of it yields `now`. */
  predicate Continues(all: Fill, added: seq<byte>, now: Fill) {
    now.rest == all.rest && now.data.Some? == all.data.Some? &&
    (now.data.Some? ==> all.data.value == added + now.data.value)
  }

  lemma ContinuesStep(all: Fill, added: seq<byte>, d: seq<byte>, next: Fill)
    requires Continues(all, added, Prepend(d, next))
    ensures Continues(all, added + d, next)
  {
    if next.data.Some? {
      assert added + (d + next.data.value) == (added + d) + next.data.value;
    }
  }

  // ---------------------------------------------------------------
  // The HTTP response header
  // ---------------------------------------------------------------

  /** "200 OK", "\r\n\r\n" and "Content-Length: " in ASCII. */
  const STATUS_OK: seq<byte> := [50, 48, 48, 32, 79, 75]
  const HEADER_END: seq<byte> := [13, 10, 13, 10]
  const CONTENT_LENGTH: seq<byte> := [67, 111, 110, 116, 101, 110, 116, 45, 76, 101, 110, 103, 116, 104, 58, 32]

  /** What the header of the first read says. */
  datatype HttpHead = MissingStatus | MissingEnd | MissingLength | Framed(hlen: nat, datalen: int)

  /** The checks of ssl.c:241-280 on the bytes of the first read. The
      buffer is a C string there: every search stops at the first NUL, the
      search for "200 OK" covers the whole text (not only the status line),
      and the search for "Content-Length: " (ignoring case) covers the text
      before the last byte of the first "\r\n\r\n", where a NUL is stored.
      A value sscanf cannot convert leaves the length at 0. */
  function ParseHead(first: seq<byte>): (r: HttpHead)
    ensures r.Framed? ==> 4 <= r.hlen <= |first|
  {
    var text := CStr(first);
    if !Contains(text, STATUS_OK) then MissingStatus
    else
      var e := Find(text, HEADER_END);
      FindFacts(text, HEADER_END);
      if e.None? then MissingEnd
      else
        var p := e.value;
        var header := text[..p + 3];
        var c := FindCaseless(header, CONTENT_LENGTH);
        FindCaselessFacts(header, CONTENT_LENGTH);
        if c.None? then MissingLength
        else
          var value := ScanInt(header[c.value + |CONTENT_LENGTH|..]);
          Framed(p + 4, if value.Some? then value.value else 0)
  }

  /** A framed header has "200 OK" in it, ends at the first "\r\n\r\n" of
      the C string, and names a Content-Length before that terminator. */
  lemma ParseHeadFacts(first: seq<byte>)
    ensures ParseHead(first) == MissingStatus <==> !Contains(CStr(first), STATUS_OK)
    ensures ParseHead(first).Framed? ==>
      var hlen := ParseHead(first).hlen;
      4 <= hlen <= |CStr(first)| && OccursAt(CStr(first), HEADER_END, hlen - 4)
      && (forall j :: 0 <= j < hlen - 4 ==> !OccursAt(CStr(first), HEADER_END, j))
      && CaselessAt(CStr(first)[..hlen - 1], CONTENT_LENGTH, FindCaseless(CStr(first)[..hlen - 1], CONTENT_LENGTH).value)
  {
    var text := CStr(first);
    FindFacts(text, HEADER_END);
    if ParseHead(first).Framed? {
      var p := Find(text, HEADER_END).value;
      var header := text[..p + 3];
      assert ParseHead(first).hlen == p + 4 && FindCaseless(header, CONTENT_LENGTH).Some?;
      FindCaselessFacts(header, CONTENT_LENGTH);
    }
  }

  /** Each outcome of the header checks, exactly: the terminator is missing
      when the C string has "200 OK" but no "\r\n\r\n", and the length is
      missing when it has both but no caseless "Content-Length: " in the
      text before the NUL stored in the terminator. */
  lemma ParseHeadCases(first: seq<byte>)
    ensures var text := CStr(first);
      ParseHead(first) == MissingEnd <==> Contains(text, STATUS_OK) && !Contains(text, HEADER_END)
    ensures var text := CStr(first);
      ParseHead(first) == MissingLength <==>
        Contains(text, STATUS_OK) && Contains(text, HEADER_END) && Find(text, HEADER_END).value + 3 <= |text| &&
        FindCaseless(text[..Find(text, HEADER_END).value + 3], CONTENT_LENGTH).None?
    ensures var text := CStr(first);
      ParseHead(first).Framed? <==>
        Contains(text, STATUS_OK) && Contains(text, HEADER_END) && Find(text, HEADER_END).value + 3 <= |text| &&
        FindCaseless(text[..Find(text, HEADER_END).value + 3], CONTENT_LENGTH).Some?
  {
    FindFacts(CStr(first), HEADER_END);
  }

  /** A header read back: a NUL-free header text with "200 OK", its first
      "\r\n\r\n" at `p` and its first caseless "Content-Length: " at `c`,
      followed by the decimal text of `n` and a non-digit, is framed with
      the header length p + 4 and the Content-Length n, whatever body
      follows it. */
  lemma ParseHeadRoundTrip(h: seq<byte>, body: seq<byte>, p: nat, c: nat, n: nat, rest: seq<byte>)
    requires forall i :: 0 <= i < |h| ==> h[i] != 0
    requires Contains(h, STATUS_OK)
    requires Find(h, HEADER_END) == Some(p) && p + 4 <= |h|
    requires FindCaseless(h[..p + 3], CONTENT_LENGTH) == Some(c) && c + |CONTENT_LENGTH| <= p + 3
    requires h[c + |CONTENT_LENGTH|..p + 3] == Decimal(n) + rest && (rest == [] || !IsDigit(rest[0]))
    ensures ParseHead(h + body) == Framed(p + 4, n)
  {
    CStrOfPrefix(h, body);
    var text := CStr(h + body);
    FindExtends(h, CStr(body), STATUS_OK);
    FindExtends(h, CStr(body), HEADER_END);
    var header := text[..p + 3];
    assert header == h[..p + 3];
    assert header[c + |CONTENT_LENGTH|..] == Decimal(n) + rest;
    ScanDecimal(n, rest);
    FramedBy(first := h + body, text := text, p := p, c := c, value := n);
  }

  /** ParseHead once each search has been resolved. */
  lemma FramedBy(first: seq<byte>, text: seq<byte>, p: nat, c: nat, value: int)
    requires text == CStr(first) && Contains(text, STATUS_OK)
    requires Find(text, HEADER_END) == Some(p) && p + 3 <= |text|
    requires FindCaseless(text[..p + 3], CONTENT_LENGTH) == Some(c) && c + |CONTENT_LENGTH| <= p + 3
    requires ScanInt(text[..p + 3][c + |CONTENT_LENGTH|..]) == Some(value)
    ensures ParseHead(first) == Framed(p + 4, value)
  {
  }

  /** How the exchange goes on after the header. */
  datatype Frame = HeadError(head: HttpHead) | EmptyBody | TooLong | Body(hlen: nat, datalen: nat)

  /** The header checks, then the bound: a length that is not positive ends
      the exchange quietly, and a total of MAXBUF or more is refused
      (ssl.c:277-291). */
  function FrameOf(first: seq<byte>, maxBuf: nat): (f: Frame)
    ensures f.Body? ==> 4 <= f.hlen <= |first| && 0 < f.datalen && f.hlen + f.datalen < maxBuf
  {
    var h := ParseHead(first);
    ParseHeadFacts(first);
    CStrFacts(first);
    if !h.Framed? then HeadError(h)
    else if h.datalen <= 0 then EmptyBody
    else if h.hlen + h.datalen >= maxBuf then TooLong
    else Body(h.hlen, h.datalen)
  }

  /** The body is framed exactly when the header is, with a positive
      length whose total stays below MAXBUF. */
  lemma FrameOfFacts(first: seq<byte>, maxBuf: nat)
    ensures FrameOf(first, maxBuf).Body? <==>
      ParseHead(first).Framed? && 0 < ParseHead(first).datalen && ParseHead(first).hlen + ParseHead(first).datalen < maxBuf
    ensures FrameOf(first, maxBuf).Body? ==>
      ParseHead(first) == Framed(FrameOf(first, maxBuf).hlen, FrameOf(first, maxBuf).datalen)
    ensures FrameOf(first, maxBuf) == EmptyBody <==> ParseHead(first).Framed? && ParseHead(first).datalen <= 0
    ensures FrameOf(first, maxBuf) == TooLong <==>
      ParseHead(first).Framed? && 0 < ParseHead(first).datalen && ParseHead(first).hlen + ParseHead(first).datalen >= maxBuf
  {
  }

  // ---------------------------------------------------------------
  // The whole exchange (ssl_rxtx_dns), as a function
  // ---------------------------------------------------------------

  /** What the wire decoder (lint_rx, lint_error, lint_err2str) says about an answer. */
  datatype RxVerdict = Clean | NxDomain | Faulty(text: string)

  /** Some filtering resolvers answer 0.0.0.0 or 127.0.0.1 for a blocked name. */
  predicate NullRouted(text: string) {
    Contains(text, "0.0.0.0") || Contains(text, "127.0.0.1")
  }

  /** One cache_set_reply call. */
  datatype Store = Store(answer: seq<byte>, ttl: int)

  /** Where an exchange ends. */
  datatype Status =
    | NotOpen
    | WriteError
    | ReadError
    | Unframed(frame: Frame)
    | ReadMoreError
    | Decoded(verdict: RxVerdict)

  /** The exits through `errout`, which close the session. */
  predicate Closes(s: Status) {
    s.WriteError? || s.ReadError? || s.ReadMoreError? || (s.Unframed? && s.frame != EmptyBody)
  }

  /** The answer whose decode error names a null-route address gets byte 3 set to 3. */
  predicate Patches(s: Status) {
    s.Decoded? && s.verdict.Faulty? && NullRouted(s.verdict.text)
  }

  /** What the reading half of an exchange produces. */
  datatype Reception = Reception(
    status: Status,
    ret: int,                     // what ssl_rxtx_dns returns
    readsLeft: seq<ReadEvent>,
    copied: Option<seq<byte>>,    // the bytes copied to the start of msg
    stored: Option<Store>)        // the cache_set_reply call made

  datatype Transfer = Transfer(
    status: Status,
    ret: int,
    writeAttempts: nat,           // BIO_write calls made
    writesLeft: seq<WriteEvent>,
    readsLeft: seq<ReadEvent>,
    copied: Option<seq<byte>>,
    stored: Option<Store>)

  /** The first read asks for one byte less than the buffer holds, so that
      the NUL stored after the bytes read stays inside it. */
  function FirstReadLimit(maxBuf: nat): (n: nat)
    requires maxBuf > 1
    ensures 0 < n < maxBuf
  {
    maxBuf - 1
  }

  /** What ssl_rxtx_dns returns once the answer is decoded (ssl.c:325-347). */
  function Returned(v: RxVerdict, datalen: nat): int {
    match v
    case Faulty(text) => if NullRouted(text) then datalen else 0
    case _ => datalen
  }

  /** The cache_set_reply call made once the answer is decoded. */
  function Stored(v: RxVerdict, answer: seq<byte>, ttlError: int, ttl: int): Option<Store> {
    match v
    case NxDomain => Some(Store(answer, ttlError))
    case Clean => Some(Store(answer, ttl))
    case Faulty(_) => None
  }

  /** A frame the header checks can produce from `first`. */
  predicate FrameFits(first: seq<byte>, frame: Frame, maxBuf: nat) {
    frame.Body? ==> 4 <= frame.hlen <= |first| && 0 < frame.datalen && frame.hlen + frame.datalen < maxBuf
  }

  /** ssl.c:229-347: reading the response from `rs`, with `lint` the wire
      decoder, `ttlError` CACHE_TTL_ERROR and `ttl` arg_cache_ttl. */
  function Receive(rs: seq<ReadEvent>, maxBuf: nat,
                   lint: seq<byte> -> RxVerdict, ttlError: int, ttl: int): (y: Reception)
    requires maxBuf > 1
    ensures 0 <= y.ret < maxBuf
    ensures y.ret > 0 ==> y.status.Decoded? && y.copied.Some? && y.ret == |y.copied.value|
    ensures y.copied.Some? <==> y.status.Decoded?
    ensures y.copied.Some? ==> 0 < |y.copied.value| < maxBuf
    ensures y.stored.Some? ==> y.copied.Some? && y.stored.value.answer == y.copied.value
    ensures !y.status.NotOpen? && !y.status.WriteError?
  {
    var fetch := ReadRetry(rs, FirstReadLimit(maxBuf));
    if fetch.data.None? then Reception(ReadError, 0, fetch.rest, None, None)
    else AfterHead(fetch.data.value, FrameOf(fetch.data.value, maxBuf), fetch.rest, maxBuf, lint, ttlError, ttl)
  }

  /** ssl.c:277-347: the exchange once the first read `first` has given
      `frame`, with `rs` the script left after that read. */
  function AfterHead(first: seq<byte>, frame: Frame, rs: seq<ReadEvent>, maxBuf: nat,
                     lint: seq<byte> -> RxVerdict, ttlError: int, ttl: int): (y: Reception)
    requires maxBuf > 1 && FrameFits(first, frame, maxBuf)
    ensures 0 <= y.ret < maxBuf
    ensures y.ret > 0 ==> y.status.Decoded? && y.copied.Some? && y.ret == |y.copied.value|
    ensures y.copied.Some? <==> y.status.Decoded?
    ensures y.copied.Some? ==> 0 < |y.copied.value| < maxBuf
    ensures y.stored.Some? ==> y.copied.Some? && y.stored.value.answer == y.copied.value
    ensures !y.status.NotOpen? && !y.status.WriteError? && !y.status.ReadError?
  {
    if !frame.Body? then Reception(Unframed(frame), 0, rs, None, None)
    else
      var fill := ReadMore(rs, |first|, frame.hlen + frame.datalen);
      if fill.data.None? then Reception(ReadMoreError, 0, fill.rest, None, None)
      else
        var bytes := first + fill.data.value;
        var answer := bytes[|bytes| - frame.datalen..];
        var v := lint(answer);
        Reception(Decoded(v), Returned(v, frame.datalen), fill.rest, Some(answer), Stored(v, answer, ttlError, ttl))
  }

  lemma AfterHeadReadMoreError(first: seq<byte>, frame: Frame, rs: seq<ReadEvent>, maxBuf: nat,
                               lint: seq<byte> -> RxVerdict, ttlError: int, ttl: int, rest: seq<ReadEvent>)
    requires maxBuf > 1 && FrameFits(first, frame, maxBuf) && frame.Body?
    requires ReadMore(rs, |first|, frame.hlen + frame.datalen) == Fill(None, rest)
    ensures AfterHead(first, frame, rs, maxBuf, lint, ttlError, ttl) == Reception(ReadMoreError, 0, rest, None, None)
  {
  }

  lemma AfterHeadDecoded(first: seq<byte>, frame: Frame, rs: seq<ReadEvent>, maxBuf: nat,
                         lint: seq<byte> -> RxVerdict, ttlError: int, ttl: int,
                         added: seq<byte>, rest: seq<ReadEvent>, from: nat)
    requires maxBuf > 1 && FrameFits(first, frame, maxBuf) && frame.Body?
    requires ReadMore(rs, |first|, frame.hlen + frame.datalen) == Fill(Some(added), rest)
    requires from == |first| + |added| - frame.datalen
    ensures var answer := (first + added)[from..];
      AfterHead(first, frame, rs, maxBuf, lint, ttlError, ttl) ==
        Reception(Decoded(lint(answer)), Returned(lint(answer), frame.datalen), rest, Some(answer), Stored(lint(answer), answer, ttlError, ttl))
  {
  }

  /** Where the answer sits in the buffer once the loop is done. */
  lemma AnswerInBuffer(b: array<byte>, first: seq<byte>, added: seq<byte>, hlen: nat, datalen: nat, from: nat)
    requires |first| + |added| <= b.Length && hlen + datalen <= |first| + |added| && hlen <= |first|
    requires from == |first| + |added| - datalen
    requires forall i :: hlen <= i < |first| ==> b[i] == first[i]
    requires forall i :: |first| <= i < |first| + |added| ==> b[i] == added[i - |first|]
    ensures b[from..from + datalen] == (first + added)[from..]
  {
  }

  /** ssl_rxtx_dns on a session that is `open`, with `ws` and `rs` the
      resolver's script. */
  function Rxtx(open: bool, ws: seq<WriteEvent>, rs: seq<ReadEvent>, maxBuf: nat,
                lint: seq<byte> -> RxVerdict, ttlError: int, ttl: int): (x: Transfer)
    requires maxBuf > 1
    ensures 0 <= x.ret < maxBuf
    ensures x.ret > 0 ==> x.status.Decoded? && x.copied.Some? && x.ret == |x.copied.value|
    ensures x.copied.Some? <==> x.status.Decoded?
    ensures x.copied.Some? ==> 0 < |x.copied.value| < maxBuf
    ensures x.writeAttempts <= 2
    ensures x.writeAttempts == 0 <==> !open
  {
    if !open then Transfer(NotOpen, 0, 0, ws, rs, None, None)
    else
      var send := WriteRetry(ws);
      if !send.ok then Transfer(WriteError, 0, send.attempts, send.rest, rs, None, None)
      else
        var y := Receive(rs, maxBuf, lint, ttlError, ttl);
        Transfer(y.status, y.ret, send.attempts, send.rest, y.readsLeft, y.copied, y.stored)
  }

  /** The caller's buffer after the exchange: the answer copied to its
      start, byte 3 patched for a null-routed answer. */
  function MsgAfter(m: seq<byte>, status: Status, copied: Option<seq<byte>>): seq<byte>
    requires copied.Some? ==> |copied.value| <= |m| && |m| > 3
  {
    if copied.None? then m
    else
      var c := copied.value + m[|copied.value|..];
      if Patches(status) then c[3 := 3] else c
  }

  function StoresOf(stored: Option<Store>): seq<Store> {
    if stored.Some? then [stored.value] else []
  }

  /** `after` is `before` with `d` written at offset `off`. */
  predicate Placed(before: seq<byte>, after: seq<byte>, off: nat, d: seq<byte>) {
    |after| == |before| && off + |d| <= |before| &&
    (forall i :: off <= i < off + |d| ==> after[i] == d[i - off]) &&
    (forall i :: 0 <= i < |after| && !(off <= i < off + |d|) ==> after[i] == before[i])
  }

  // ---------------------------------------------------------------
  // The session (module-level state of ssl.c)
  // ---------------------------------------------------------------

  /** The trust anchor an SSL context was loaded with. */
  datatype Anchor = AnchorFile(path: string) | AnchorDir(path: string)

  function AnchorFor(certfile: Option<string>): Anchor {
    if certfile.Some? then AnchorFile(certfile.value) else AnchorDir(CERT_DIR)
  }

  /** Which way ssl_open ends; TrustStoreMissing is the exit(1) of ssl.c:135-144. */
  datatype OpenOutcome = FallbackOnly | TrustStoreMissing | ConnectFailed | VerifyFailed | Opened

  class Transport {
    /** MAXBUF, the size of every message buffer. */
    const maxBuf: nat
    var state: SslState
    /** ctx: None while NULL, else the anchor it was loaded with. */
    var ctx: Option<Anchor>
    /** bio != NULL and ssl != NULL. */
    var bio: bool
    var ssl: bool
    /** The resolver's script. */
    var writeScript: seq<WriteEvent>
    var readScript: seq<ReadEvent>
    /** Every buffer handed to BIO_write, in order. */
    var sent: seq<seq<byte>>
    /** Every cache_set_reply call, in order. */
    var stores: seq<Store>

    predicate Valid()
      reads this
    {
      maxBuf > 4 && (state == SslOpen ==> ssl && ctx.Some?) && (ssl ==> bio)
    }

    constructor (maxBuf: nat, writeScript: seq<WriteEvent>, readScript: seq<ReadEvent>)
      requires maxBuf > 4
      ensures Valid()
      ensures this.maxBuf == maxBuf && this.writeScript == writeScript && this.readScript == readScript
      ensures state == SslClosed && ctx == None && !bio && !ssl && sent == [] && stores == []
    {
      this.maxBuf := maxBuf;
      this.writeScript := writeScript;
      this.readScript := readScript;
      state := SslClosed;
      ctx := None;
      bio, ssl := false, false;
      sent, stores := [], [];
    }

    /** ssl_open. `loads` tells whether SSL_CTX_load_verify_locations
        accepts an anchor; `connects` and `verified` are the results of
        BIO_do_connect and SSL_get_verify_result. */
    method Open(fallbackOnly: bool, certfile: Option<string>, onDisk: string -> bool,
                loads: Anchor -> bool, connects: bool, verified: bool) returns (outcome: OpenOutcome)
      requires Valid() && state == SslClosed
      modifies this`ctx, this`bio, this`ssl, this`state
      ensures Valid()
      ensures fallbackOnly ==> outcome == FallbackOnly && ctx == old(ctx) && bio == old(bio) && ssl == old(ssl)
      ensures !fallbackOnly ==> ctx == (if old(ctx).Some? then old(ctx) else Some(AnchorFor(CertFileChoice(certfile, onDisk))))
      ensures outcome == TrustStoreMissing <==>
        !fallbackOnly && old(ctx).None? && !loads(AnchorFor(CertFileChoice(certfile, onDisk)))
      ensures outcome == TrustStoreMissing ==> bio == old(bio) && ssl == old(ssl)
      ensures !fallbackOnly && outcome != TrustStoreMissing ==> bio && ssl
      ensures outcome == ConnectFailed <==> !fallbackOnly && outcome != TrustStoreMissing && !connects
      ensures outcome == VerifyFailed <==> !fallbackOnly && outcome != TrustStoreMissing && connects && !verified
      ensures state == SslOpen <==> outcome == Opened
      ensures outcome == FallbackOnly <==> fallbackOnly
      ensures outcome == Opened <==> !fallbackOnly && outcome != TrustStoreMissing && connects && verified
    {
      if fallbackOnly {
        return FallbackOnly;
      }
      if ctx.None? {
        var file := GetCertFile(certfile, onDisk);
        var anchor := AnchorFor(file);
        ctx := Some(anchor);
        if !loads(anchor) {
          return TrustStoreMissing;
        }
      }
      // BIO_new_ssl_connect and BIO_get_ssl
      bio, ssl := true, true;
      if !connects {
        return ConnectFailed;
      }
      if !verified {
        return VerifyFailed;
      }
      state := SslOpen;
      return Opened;
    }

    /** ssl_close: whatever the state, ssl becomes NULL and the session CLOSED. */
    method Close()
      requires Valid()
      modifies this`ssl, this`state
      ensures Valid() && state == SslClosed && !ssl
    {
      ssl := false;
      state := SslClosed;
    }

    /** One BIO_write of `data`, followed by BIO_should_retry when it fails. */
    method BioWrite(data: seq<byte>) returns (ok: bool, retry: bool)
      modifies this`writeScript, this`sent
      ensures sent == old(sent) + [data] && writeScript == Tail(old(writeScript))
      ensures ok <==> NextWrite(old(writeScript)) == Accepted
      ensures !ok ==> retry == NextWrite(old(writeScript)).shouldRetry
    {
      sent := sent + [data];
      var e := NextWrite(writeScript);
      writeScript := Tail(writeScript);
      ok := e.Accepted?;
      retry := !ok && e.shouldRetry;
    }

    /** One BIO_read of at most `n` bytes into buf[off..], followed by
        BIO_should_retry when it fails. */
    method BioRead(buf: array<byte>, off: nat, n: nat) returns (rv: int, retry: bool)
      requires 0 < n && off + n <= buf.Length
      modifies this`readScript, buf
      ensures readScript == ReadOnce(old(readScript), n).rest
      ensures ReadOnce(old(readScript), n).read.Got? ==>
        var d := ReadOnce(old(readScript), n).read.data;
        rv == |d| && Placed(old(buf[..]), buf[..], off, d)
      ensures ReadOnce(old(readScript), n).read.Stalled? ==>
        rv <= 0 && retry == ReadOnce(old(readScript), n).read.shouldRetry && buf[..] == old(buf[..])
    {
      var r := ReadOnce(readScript, n);
      readScript := r.rest;
      match r.read
      case Got(d) =>
        forall i | 0 <= i < |d| {
          buf[off + i] := d[i];
        }
        rv, retry := |d|, false;
      case Stalled(sr) =>
        rv, retry := -1, sr;
    }

    /** Writing the request, retried once (ssl.c:214-224). */
    method WriteRequest(data: seq<byte>) returns (ok: bool)
      modifies this`writeScript, this`sent
      ensures ok == WriteRetry(old(writeScript)).ok && writeScript == WriteRetry(old(writeScript)).rest
      ensures sent == old(sent) + Repeat(data, WriteRetry(old(writeScript)).attempts)
    {
      var retry;
      ok, retry := BioWrite(data);
      if !ok {
        if !retry {
          assert Repeat(data, 1) == [data];
          return;
        }
        ok, retry := BioWrite(data);
        assert Repeat(data, 2) == [data, data];
      } else {
        assert Repeat(data, 1) == [data];
      }
    }

    /** A BIO_read of at most `n` bytes into buf[off..], retried once when
        it fails and BIO_should_retry says so (ssl.c:229-239, 294-309). */
    method ReadWithRetry(buf: array<byte>, off: nat, n: nat) returns (rv: int)
      requires 0 < n && off + n <= buf.Length
      modifies this`readScript, buf
      ensures readScript == ReadRetry(old(readScript), n).rest
      ensures ReadRetry(old(readScript), n).data.Some? ==>
        var d := ReadRetry(old(readScript), n).data.value;
        rv == |d| && Placed(old(buf[..]), buf[..], off, d)
      ensures ReadRetry(old(readScript), n).data.None? ==> rv <= 0 && buf[..] == old(buf[..])
    {
      var retry;
      rv, retry := BioRead(buf, off, n);
      if rv <= 0 {
        if !retry {
          return;
        }
        rv, retry := BioRead(buf, off, n);
      }
    }

    /** The read-more loop (ssl.c:293-312), holding `len0` bytes in `buf`:
        the bytes read land in buf[len0..len]. */
    method ReadBody(buf: array<byte>, len0: nat, total: nat) returns (ok: bool, len: nat)
      requires len0 <= buf.Length && total <= buf.Length
      modifies this`readScript, buf
      ensures ok == ReadMore(old(readScript), len0, total).data.Some?
      ensures readScript == ReadMore(old(readScript), len0, total).rest
      ensures ok ==> len == len0 + |ReadMore(old(readScript), len0, total).data.value| && len <= buf.Length
      ensures ok ==> forall i :: len0 <= i < len ==> buf[i] == ReadMore(old(readScript), len0, total).data.value[i - len0]
      ensures forall i :: 0 <= i < len0 ==> buf[i] == old(buf[i])
    {
      len := len0;
      ghost var added: seq<byte> := [];
      ghost var all := ReadMore(readScript, len0, total);
      while len < total
        invariant len0 <= len <= buf.Length && len == len0 + |added|
        invariant forall i :: len0 <= i < len ==> buf[i] == added[i - len0]
        invariant forall i :: 0 <= i < len0 ==> buf[i] == old(buf[i])
        invariant Continues(all, added, ReadMore(readScript, len, total))
        decreases total - len
      {
        ghost var rs, before, have := readScript, len, added;
        var rv := ReadWithRetry(buf, len, total - len);
        if rv <= 0 {
          ReadMoreStall(rs, len, total);
          return false, len;
        }
        ghost var d := ReadRetry(rs, total - before).data.value;
        added := added + d;
        len := len + rv;
        ReadMoreStep(rs, before, total, readScript, len);
        ContinuesStep(all, have, d, ReadMore(readScript, len, total));
      }
      ReadMoreDone(readScript, len, total);
      assert added + [] == added;
      ok := true;
    }

    /** ssl_rxtx_dns: sends the `cnt` query bytes at the start of `msg` and
        leaves the answer there. `request` is the HTTP request template as
        sprintf formats it for `cnt`. */
    method Exchange(msg: array<byte>, cnt: nat, request: seq<byte>,
                    lint: seq<byte> -> RxVerdict, ttlError: int, ttl: int) returns (r: int)
      requires Valid()
      requires cnt <= msg.Length && maxBuf <= msg.Length
      requires state == SslOpen && ssl ==> |request| + cnt < maxBuf
      modifies this`writeScript, this`readScript, this`sent, this`stores, this`state, this`ssl, msg
      ensures Valid()
      ensures var x := Rxtx(old(state == SslOpen && ssl), old(writeScript), old(readScript), maxBuf, lint, ttlError, ttl);
        r == x.ret && writeScript == x.writesLeft && readScript == x.readsLeft
        && sent == old(sent) + Repeat(request + old(msg[..cnt]), x.writeAttempts)
        && stores == old(stores) + StoresOf(x.stored)
        && state == (if Closes(x.status) then SslClosed else old(state))
        && ssl == (if Closes(x.status) then false else old(ssl))
        && msg[..] == MsgAfter(old(msg[..]), x.status, x.copied)
    {
      if !ssl || state != SslOpen {
        return 0;
      }
      // sprintf the request, then memcpy the query after it
      var buf := new byte[maxBuf];
      var req := request + msg[..cnt];
      forall i | 0 <= i < |req| {
        buf[i] := req[i];
      }
      assert buf[..|req|] == req;
      var len := |req|;

      var ok := WriteRequest(buf[..len]);
      if !ok {
        Close();
        return 0;
      }
      r := ReceiveReply(buf, msg, lint, ttlError, ttl);
    }

    /** ssl.c:229-351: reading the response into `buf` and the answer into `msg`. */
    method ReceiveReply(buf: array<byte>, msg: array<byte>,
                        lint: seq<byte> -> RxVerdict, ttlError: int, ttl: int) returns (r: int)
      requires Valid() && buf.Length == maxBuf && maxBuf <= msg.Length && buf != msg
      modifies this`readScript, this`stores, this`state, this`ssl, buf, msg
      ensures Valid()
      ensures var y := Receive(old(readScript), maxBuf, lint, ttlError, ttl);
        r == y.ret && readScript == y.readsLeft && stores == old(stores) + StoresOf(y.stored)
        && state == (if Closes(y.status) then SslClosed else old(state))
        && ssl == (if Closes(y.status) then false else old(ssl))
        && msg[..] == MsgAfter(old(msg[..]), y.status, y.copied)
    {
      ghost var rs0 := readScript;
      var len := ReadWithRetry(buf, 0, FirstReadLimit(maxBuf));
      if len <= 0 {
        Close();
        return 0;
      }
      var first := buf[..len];
      assert first == ReadRetry(rs0, FirstReadLimit(maxBuf)).data.value;
      var frame := FrameOf(first, maxBuf);
      r := ReceiveBody(buf, len, first, frame, msg, lint, ttlError, ttl);
    }

    /** ssl.c:241-351, once the first read has put `first` in `buf` and
        the header checks have given `frame`. */
    method ReceiveBody(buf: array<byte>, len: nat, ghost first: seq<byte>, frame: Frame, msg: array<byte>,
                       lint: seq<byte> -> RxVerdict, ttlError: int, ttl: int) returns (r: int)
      requires Valid() && buf.Length == maxBuf && maxBuf <= msg.Length && buf != msg
      requires len == |first| < maxBuf && buf[..len] == first && FrameFits(first, frame, maxBuf)
      modifies this`readScript, this`stores, this`state, this`ssl, buf, msg
      ensures Valid()
      ensures var y := AfterHead(first, frame, old(readScript), maxBuf, lint, ttlError, ttl);
        r == y.ret && readScript == y.readsLeft && stores == old(stores) + StoresOf(y.stored)
        && state == (if Closes(y.status) then SslClosed else old(state))
        && ssl == (if Closes(y.status) then false else old(ssl))
        && msg[..] == MsgAfter(old(msg[..]), y.status, y.copied)
    {
      buf[len] := 0;
      if !frame.Body? {
        if frame != EmptyBody {
          Close();
        }
        return 0;
      }
      buf[frame.hlen - 1] := 0;
      assert forall i :: frame.hlen <= i < len ==> buf[i] == first[i];
      r := ReadAnswer(buf, len, first, frame, msg, lint, ttlError, ttl);
    }

    /** ssl.c:293-351: the read-more loop, then the answer copied to `msg`
        and judged. buf[hlen..len] still holds what the first read put there. */
    method ReadAnswer(buf: array<byte>, len: nat, ghost first: seq<byte>, frame: Frame, msg: array<byte>,
                      lint: seq<byte> -> RxVerdict, ttlError: int, ttl: int) returns (r: int)
      requires Valid() && buf.Length == maxBuf && maxBuf <= msg.Length && buf != msg
      requires len == |first| < maxBuf && FrameFits(first, frame, maxBuf) && frame.Body?
      requires forall i :: frame.hlen <= i < len ==> buf[i] == first[i]
      modifies this`readScript, this`stores, this`state, this`ssl, buf, msg
      ensures Valid()
      ensures var y := AfterHead(first, frame, old(readScript), maxBuf, lint, ttlError, ttl);
        r == y.ret && readScript == y.readsLeft && stores == old(stores) + StoresOf(y.stored)
        && state == (if Closes(y.status) then SslClosed else old(state))
        && ssl == (if Closes(y.status) then false else old(ssl))
        && msg[..] == MsgAfter(old(msg[..]), y.status, y.copied)
    {
      var datalen := frame.datalen;
      var total := frame.hlen + datalen;
      ghost var rest := readScript;
      var ok, more := ReadBody(buf, len, total);
      ghost var fill := ReadMore(rest, |first|, total);
      if !ok {
        AfterHeadReadMoreError(first, frame, rest, maxBuf, lint, ttlError, ttl, fill.rest);
        Close();
        return 0;
      }
      ghost var added := fill.data.value;
      var from := more - datalen;
      ghost var answer := (first + added)[from..];
      AnswerInBuffer(buf, first, added, frame.hlen, datalen, from);
      AfterHeadDecoded(first, frame, rest, maxBuf, lint, ttlError, ttl, added, fill.rest, from);
      r := Deliver(msg, buf, from, datalen, answer, lint, ttlError, ttl);
    }

    /** memcpy(msg, buf + from, n). */
    static method CopyOut(msg: array<byte>, buf: array<byte>, from: nat, n: nat)
      requires msg != buf && n <= msg.Length && from + n <= buf.Length
      modifies msg
      ensures msg[..] == buf[from..from + n] + old(msg[n..])
    {
      forall i | 0 <= i < n {
        msg[i] := buf[from + i];
      }
    }

    /** ssl.c:315-347: memcpy(msg, buf + from, datalen), then what the
        decoder's verdict on that answer leads to. */
    method Deliver(msg: array<byte>, buf: array<byte>, from: nat, datalen: nat, ghost answer: seq<byte>,
                   lint: seq<byte> -> RxVerdict, ttlError: int, ttl: int) returns (r: int)
      requires msg != buf && 3 < msg.Length && 0 < datalen <= msg.Length && from + datalen <= buf.Length
      requires buf[from..from + datalen] == answer
      modifies this`stores, msg
      ensures var v := lint(answer);
        r == Returned(v, datalen)
        && stores == old(stores) + StoresOf(Stored(v, answer, ttlError, ttl))
        && msg[..] == MsgAfter(old(msg[..]), Decoded(v), Some(answer))
    {
      CopyOut(msg, buf, from, datalen);
      assert msg[..datalen] == answer;
      var v := lint(msg[..datalen]);
      match v
      case NxDomain =>
        stores := stores + [Store(msg[..datalen], ttlError)];
        return datalen;
      case Faulty(text) =>
        if NullRouted(text) {
          msg[3] := 3;
          return datalen;
        }
        return 0;
      case Clean =>
        stores := stores + [Store(msg[..datalen], ttl)];
        return datalen;
    }
  }

  // ---------------------------------------------------------------
  // Properties of the exchange
  // ---------------------------------------------------------------

  /** Without an open session nothing is written or read and 0 is returned. */
  lemma ClosedSessionIdle(ws: seq<WriteEvent>, rs: seq<ReadEvent>, maxBuf: nat,
                          lint: seq<byte> -> RxVerdict, ttlError: int, ttl: int)
    requires maxBuf > 1
    ensures Rxtx(false, ws, rs, maxBuf, lint, ttlError, ttl) == Transfer(NotOpen, 0, 0, ws, rs, None, None)
  {
  }

  /** The write fails exactly when its last attempt fails, the first read
      exactly when both of its attempts do; either closes the session and
      returns 0 with nothing copied or cached. */
  lemma FailedAttemptsClose(open: bool, ws: seq<WriteEvent>, rs: seq<ReadEvent>, maxBuf: nat,
                            lint: seq<byte> -> RxVerdict, ttlError: int, ttl: int)
    requires maxBuf > 1
    ensures var x := Rxtx(open, ws, rs, maxBuf, lint, ttlError, ttl);
      (x.status == WriteError <==> open && !WriteRetry(ws).ok) &&
      (x.status == ReadError <==> open && WriteRetry(ws).ok && ReadRetry(rs, FirstReadLimit(maxBuf)).data.None?)
    ensures var x := Rxtx(open, ws, rs, maxBuf, lint, ttlError, ttl);
      (x.status == WriteError || x.status == ReadError) ==> Closes(x.status) && x.ret == 0 && x.copied.None? && x.stored.None?
  {
  }

  /** A first read whose header fails a check ends the exchange with 0 and
      nothing copied or cached; it closes the session unless the length
      was 0. */
  lemma HeaderFailures(first: seq<byte>, rs: seq<ReadEvent>, maxBuf: nat,
                       lint: seq<byte> -> RxVerdict, ttlError: int, ttl: int)
    requires maxBuf > 1 && !FrameOf(first, maxBuf).Body?
    ensures var y := AfterHead(first, FrameOf(first, maxBuf), rs, maxBuf, lint, ttlError, ttl);
      y.ret == 0 && y.copied.None? && y.stored.None? && y.readsLeft == rs &&
      (Closes(y.status) <==> FrameOf(first, maxBuf) != EmptyBody)
    ensures FrameOf(first, maxBuf) == HeadError(MissingStatus) <==> !Contains(CStr(first), STATUS_OK)
  {
    ParseHeadFacts(first);
    FrameOfFacts(first, maxBuf);
  }

  /** What the decoder's verdict leads to once the answer is in: an
      NXDOMAIN answer is cached for CACHE_TTL_ERROR, a clean one for
      arg_cache_ttl, and both return the length; a faulty one is never
      cached, returns the length only when it names a null-route address
      (which gets msg[3] set), and otherwise returns 0. No verdict closes
      the session. */
  lemma DecodedOutcomes(v: RxVerdict, answer: seq<byte>, datalen: nat, ttlError: int, ttl: int)
    requires datalen > 0
    ensures v == NxDomain ==> Returned(v, datalen) == datalen && Stored(v, answer, ttlError, ttl) == Some(Store(answer, ttlError))
    ensures v == Clean ==> Returned(v, datalen) == datalen && Stored(v, answer, ttlError, ttl) == Some(Store(answer, ttl))
    ensures v.Faulty? ==> Stored(v, answer, ttlError, ttl).None? && (Returned(v, datalen) == datalen <==> NullRouted(v.text))
    ensures v.Faulty? ==> (Returned(v, datalen) == 0 <==> !NullRouted(v.text))
    ensures Patches(Decoded(v)) <==> v.Faulty? && NullRouted(v.text)
    ensures !Closes(Decoded(v))
  {
  }

  /** The answer handed to the caller is the Content-Length bytes that
      follow the HTTP header in what the resolver sent, provided the first
      read did not already go past them. */
  lemma AnswerIsBody(first: seq<byte>, frame: Frame, rs: seq<ReadEvent>, maxBuf: nat,
                     lint: seq<byte> -> RxVerdict, ttlError: int, ttl: int)
    requires maxBuf > 1 && FrameFits(first, frame, maxBuf) && frame.Body?
    requires |first| <= frame.hlen + frame.datalen
    ensures var y := AfterHead(first, frame, rs, maxBuf, lint, ttlError, ttl);
      y.copied.Some? ==>
        frame.hlen + frame.datalen <= |first + Stream(rs)| &&
        y.copied.value == (first + Stream(rs))[frame.hlen..frame.hlen + frame.datalen]
  {
    var total := frame.hlen + frame.datalen;
    var fill := ReadMore(rs, |first|, total);
    if fill.data.None? {
      AfterHeadReadMoreError(first, frame, rs, maxBuf, lint, ttlError, ttl, fill.rest);
    } else {
      ReadMoreConserves(rs, |first|, total);
      var added := fill.data.value;
      AfterHeadDecoded(first, frame, rs, maxBuf, lint, ttlError, ttl, added, fill.rest, |first| + |added| - frame.datalen);
      TailOfHeld(first, added, Stream(fill.rest), Stream(rs), frame.hlen, frame.datalen);
    }
  }

  /** When the first read already holds more than the header and the
      Content-Length bytes, no more is read and the answer is the last
      Content-Length bytes of the first read, not the bytes after the
      header. */
  lemma FirstReadOverrun(first: seq<byte>, frame: Frame, rs: seq<ReadEvent>, maxBuf: nat,
                         lint: seq<byte> -> RxVerdict, ttlError: int, ttl: int)
    requires maxBuf > 1 && FrameFits(first, frame, maxBuf) && frame.Body?
    requires |first| > frame.hlen + frame.datalen
    ensures AfterHead(first, frame, rs, maxBuf, lint, ttlError, ttl).readsLeft == rs
    ensures AfterHead(first, frame, rs, maxBuf, lint, ttlError, ttl).copied == Some(first[|first| - frame.datalen..])
  {
    ReadMoreDone(rs, |first|, frame.hlen + frame.datalen);
    AfterHeadDecoded(first, frame, rs, maxBuf, lint, ttlError, ttl, [], rs, |first| - frame.datalen);
    assert first + [] == first;
  }

  /** The last `datalen` bytes held, after a first read `first` and the
      bytes `added` taken from a stream `all` that continues with `tail`. */
  lemma TailOfHeld(first: seq<byte>, added: seq<byte>, tail: seq<byte>, all: seq<byte>, hlen: nat, datalen: nat)
    requires added + tail == all && hlen <= |first|
    requires |first| < hlen + datalen ==> |first| + |added| == hlen + datalen
    requires |first| >= hlen + datalen ==> added == []
    ensures |first| <= hlen + datalen ==>
      hlen + datalen <= |first + all| && (first + added)[|first| + |added| - datalen..] == (first + all)[hlen..hlen + datalen]
    ensures |first| > hlen + datalen ==> (first + added)[|first| + |added| - datalen..] == first[|first| - datalen..]
  {
    var bytes := first + added;
    assert first + all == bytes + tail;
    if |first| > hlen + datalen {
      assert bytes == first;
    } else if |first| == hlen + datalen {
      assert added == [] && bytes == first;
      assert (bytes + tail)[hlen..hlen + datalen] == bytes[hlen..];
    } else {
      assert (bytes + tail)[hlen..hlen + datalen] == bytes[hlen..];
    }
  }


  /** The same, for the whole response: unless the first read holds more
      than header and body, the answer is the body that follows the header
      in the resolver's byte stream. */
  lemma ResponseBody(rs: seq<ReadEvent>, maxBuf: nat, lint: seq<byte> -> RxVerdict, ttlError: int, ttl: int)
    requires maxBuf > 1
    ensures var y := Receive(rs, maxBuf, lint, ttlError, ttl);
      var first := ReadRetry(rs, FirstReadLimit(maxBuf)).data;
      y.copied.Some? ==>
        first.Some? && FrameOf(first.value, maxBuf).Body? &&
        (var frame := FrameOf(first.value, maxBuf);
         |first.value| <= frame.hlen + frame.datalen ==>
           frame.hlen + frame.datalen <= |Stream(rs)| &&
           y.copied.value == Stream(rs)[frame.hlen..frame.hlen + frame.datalen])
  {
    var y := Receive(rs, maxBuf, lint, ttlError, ttl);
    var fetch := ReadRetry(rs, FirstReadLimit(maxBuf));
    if fetch.data.Some? {
      var first := fetch.data.value;
      ReadRetryConserves(rs, FirstReadLimit(maxBuf));
      assert y == AfterHead(first, FrameOf(first, maxBuf), fetch.rest, maxBuf, lint, ttlError, ttl);
      BodyAfterFirstRead(first, fetch.rest, maxBuf, lint, ttlError, ttl);
      assert first + Stream(fetch.rest) == Stream(rs);
    }
  }

  /** ResponseBody once the first read has returned `first`. */
  lemma BodyAfterFirstRead(first: seq<byte>, rs: seq<ReadEvent>, maxBuf: nat,
                           lint: seq<byte> -> RxVerdict, ttlError: int, ttl: int)
    requires maxBuf > 1
    ensures var frame := FrameOf(first, maxBuf);
      var y := AfterHead(first, frame, rs, maxBuf, lint, ttlError, ttl);
      y.copied.Some? ==>
        frame.Body? &&
        (|first| <= frame.hlen + frame.datalen ==>
           frame.hlen + frame.datalen <= |first + Stream(rs)| &&
           y.copied.value == (first + Stream(rs))[frame.hlen..frame.hlen + frame.datalen])
  {
    var frame := FrameOf(first, maxBuf);
    if frame.Body? && |first| <= frame.hlen + frame.datalen {
      AnswerIsBody(first, frame, rs, maxBuf, lint, ttlError, ttl);
    }
  }
}

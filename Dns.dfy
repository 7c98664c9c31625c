/** The query admission pipeline of dns.c: a query from the LAN is
    decoded, screened and routed to one destination, with the statistics
    counters and the cache's fill slot updated on the way. */
module Dns {
  import opened Bytes
  import Ssl

  // ---------------------------------------------------------------
  // What the wire decoder (lint_header, lint_question) yields
  // ---------------------------------------------------------------

  /** The fixed part of a DNS message (section 4.1.1 of RFC 1035). */
  const HEADER_SIZE: nat := 12

  /** A decoded header: the query id, the flags word and the four section counts. */
  datatype Header = Header(id: nat, flags: bv16, questions: nat, answer: nat, authority: nat, additional: nat)

  /** A decoded question: the name as dotted text, its record type, the two
      lengths the cache and the forwarder are keyed by (q->len, q->dlen),
      and how many bytes the question occupies after the header. */
  datatype Question = Question(domain: string, qtype: nat, len: nat, dlen: nat, consumed: nat)

  /** The decoder as the pipeline sees it. Both functions are given the
      whole packet: in dns.c lint_header advances the read position past the
      header and lint_question reads on from there, and `consumed` is how
      far it got. */
  datatype Decoder = Decoder(header: seq<byte> -> Option<Header>, question: seq<byte> -> Option<Question>)

  const TYPE_A: nat := 1
  const TYPE_PTR: nat := 0x0c
  const TYPE_AAAA: nat := 0x1c

  /** The response bit: set in answers, clear in queries. */
  const FLAG_QR: bv16 := 0x8000
  /** The opcode bits, all clear in a standard query. */
  const FLAG_OPCODE: bv16 := 0x7800

  // ---------------------------------------------------------------
  // The gateway's settings and the services it consults
  // ---------------------------------------------------------------

  /** arg_allow_all_queries, arg_ipv6, arg_nofilter and CACHE_NAME_LEN. */
  datatype Config = Config(allowAllQueries: bool, ipv6: bool, noFilter: bool, cacheNameLen: nat)

  /** whitelist_active / whitelist_blocked, filter_blocked (the label of the
      list that blocks a name), cache_check (the stored reply for a query
      id, name and address family) and forwarder_check. */
  datatype Services = Services(
    whitelistActive: bool,
    whitelistBlocked: string -> bool,
    filterBlocked: string -> Option<string>,
    cacheCheck: (nat, string, bool) -> Option<seq<byte>>,
    forwarderCheck: (string, nat) -> bool)

  // ---------------------------------------------------------------
  // The decision (dns_parser, dns.c:31-205)
  // ---------------------------------------------------------------

  /** Why a query is dropped without an answer. */
  datatype DropReason = BadHeader | NotQuery | BadFlags | BadCounts | BadQuestion | BadLength | TypeRejected

  /** Why a query is answered NXDOMAIN. */
  datatype NxReason = Ipv6Disabled | Ptr | NotWhitelisted | Filtered(list: string) | Dotless

  /** The branch dns_parser leaves by. */
  datatype Route =
    | Dropped(drop: DropReason)
    | Nxdomain(nx: NxReason)
    | CacheHit(reply: seq<byte>)
    | Forwarded
    | Upstream

  datatype Destination = DestDrop | DestLocal | DestForwarding | DestSsl

  /** The buffer dns_parser returns: NULL, the input buffer rewritten to
      NXDOMAIN, or the reply cache_check found. */
  datatype Reply = Null | InputBuffer | CacheBuffer(bytes: seq<byte>)

  /** The flag checks of dns.c:46-55. */
  predicate FlagsOk(h: Header) {
    h.flags & FLAG_QR == 0 && h.flags & FLAG_OPCODE == 0
  }

  /** Exactly one question and no records (dns.c:58). */
  predicate CountsOk(h: Header) {
    h.questions == 1 && h.answer == 0 && h.authority == 0 && h.additional == 0
  }

  /** The question ends at the packet's last byte (dns.c:75). */
  predicate EndsAtLast(p: seq<byte>, q: Question) {
    HEADER_SIZE + q.consumed == |p|
  }

  datatype Screening = Rejected(why: DropReason) | Accepted(h: Header, q: Question)

  /** The structural checks, in order (dns.c:38-79). */
  function Screen(p: seq<byte>, lint: Decoder): (r: Screening)
    ensures r.Accepted? ==> lint.header(p) == Some(r.h) && lint.question(p) == Some(r.q)
    ensures r.Accepted? ==> FlagsOk(r.h) && CountsOk(r.h) && EndsAtLast(p, r.q)
    ensures r.Rejected? ==> r.why != TypeRejected
  {
    var h := lint.header(p);
    if h.None? then Rejected(BadHeader)
    else if h.value.flags & FLAG_QR != 0 then Rejected(NotQuery)
    else if h.value.flags & FLAG_OPCODE != 0 then Rejected(BadFlags)
    else if !CountsOk(h.value) then Rejected(BadCounts)
    else
      var q := lint.question(p);
      if q.None? then Rejected(BadQuestion)
      else if !EndsAtLast(p, q.value) then Rejected(BadLength)
      else Accepted(h.value, q.value)
  }

  /** The address family cache_check and cache_set_name are given. */
  predicate WantsIpv6(q: Question) {
    q.qtype == TYPE_AAAA
  }

  /** The type policy (dns.c:84-131): None lets the query go on. */
  function TypePolicy(q: Question, cfg: Config): (r: Option<Route>)
    ensures r.Some? ==> !cfg.allowAllQueries && q.qtype != TYPE_A
    ensures r.Some? ==> r.value.Nxdomain? || r.value == Dropped(TypeRejected)
    ensures r == Some(Dropped(TypeRejected)) <==> !cfg.allowAllQueries && q.qtype !in {TYPE_A, TYPE_AAAA, TYPE_PTR}
    ensures r.None? <==> cfg.allowAllQueries || q.qtype == TYPE_A || (q.qtype == TYPE_AAAA && cfg.ipv6)
    ensures r == Some(Nxdomain(Ptr)) <==> !cfg.allowAllQueries && q.qtype == TYPE_PTR
  {
    if cfg.allowAllQueries || q.qtype == TYPE_A then None
    else if q.qtype == TYPE_AAAA then (if cfg.ipv6 then None else Some(Nxdomain(Ipv6Disabled)))
    else if q.qtype == TYPE_PTR then Some(Nxdomain(Ptr))
    else Some(Dropped(TypeRejected))
  }

  /** The name checks, in order (dns.c:136-163): None lets the query go on. */
  function NameChecks(q: Question, cfg: Config, svc: Services): (r: Option<Route>)
    ensures r.Some? ==> r.value.Nxdomain?
    ensures r.None? <==>
      !(svc.whitelistActive && svc.whitelistBlocked(q.domain)) &&
      (cfg.noFilter || svc.filterBlocked(q.domain).None?) && '.' in q.domain
  {
    if svc.whitelistActive && svc.whitelistBlocked(q.domain) then Some(Nxdomain(NotWhitelisted))
    else if !cfg.noFilter && svc.filterBlocked(q.domain).Some? then Some(Nxdomain(Filtered(svc.filterBlocked(q.domain).value)))
    else if '.' !in q.domain then Some(Nxdomain(Dotless))
    else None
  }

  /** The cache is consulted only for names of at most CACHE_NAME_LEN. */
  predicate Cacheable(q: Question, cfg: Config) {
    q.len <= cfg.cacheNameLen
  }

  /** Where a query that passed every check goes (dns.c:168-198). */
  function Routing(h: Header, q: Question, cfg: Config, svc: Services): (r: Route)
    ensures r.CacheHit? || r == Forwarded || r == Upstream
    ensures r.CacheHit? ==> Cacheable(q, cfg) && svc.cacheCheck(h.id, q.domain, WantsIpv6(q)) == Some(r.reply)
  {
    var hit := if Cacheable(q, cfg) then svc.cacheCheck(h.id, q.domain, WantsIpv6(q)) else None;
    if hit.Some? then CacheHit(hit.value)
    else if svc.forwarderCheck(q.domain, q.dlen) then Forwarded
    else Upstream
  }

  /** The query after the type policy: the name checks, then the routing. */
  function Admit(h: Header, q: Question, cfg: Config, svc: Services): Route {
    var n := NameChecks(q, cfg, svc);
    if n.Some? then n.value else Routing(h, q, cfg, svc)
  }

  /** The branch dns_parser takes for packet `p`. */
  function Decide(p: seq<byte>, cfg: Config, svc: Services, lint: Decoder): (r: Route)
    ensures (r.Dropped? && r.drop != TypeRejected) <==> Screen(p, lint).Rejected?
    ensures r.CacheHit? || r.Forwarded? || r.Upstream? ==>
      Screen(p, lint).Accepted? && '.' in Screen(p, lint).q.domain
  {
    match Screen(p, lint)
    case Rejected(why) => Dropped(why)
    case Accepted(h, q) =>
      var t := TypePolicy(q, cfg);
      if t.Some? then t.value else Admit(h, q, cfg, svc)
  }

  function DestinationOf(r: Route): Destination {
    match r
    case Dropped(_) => DestDrop
    case Nxdomain(_) => DestLocal
    case CacheHit(_) => DestLocal
    case Forwarded => DestForwarding
    case Upstream => DestSsl
  }

  function ReplyOf(r: Route): Reply {
    match r
    case Nxdomain(_) => InputBuffer
    case CacheHit(b) => CacheBuffer(b)
    case _ => Null
  }

  /** *lenptr afterwards: the length of the cached reply on a hit, else as it was. */
  function LengthAfter(r: Route, len: nat): nat {
    if r.CacheHit? then |r.reply| else len
  }

  /** The global statistics counters dns_parser touches. */
  datatype Stats = Stats(rx: int, drop: int, cached: int, fwd: int)

  /** The counters after a query that took route `r`. An AAAA query with
      IPv6 off takes back the receive count and passes drop_nxdomain with
      its drop count taken back first. */
  function StatsAfter(s: Stats, r: Route): (t: Stats)
    ensures t.rx == s.rx || t.rx == s.rx - 1
    ensures t.drop >= s.drop && t.cached >= s.cached && t.fwd >= s.fwd
    ensures (t.drop - s.drop) + (t.cached - s.cached) + (t.fwd - s.fwd) <= 1
  {
    match r
    case Dropped(_) => s
    case Nxdomain(why) =>
      if why == Ipv6Disabled then s.(rx := s.rx - 1, drop := s.drop - 1 + 1) else s.(drop := s.drop + 1)
    case CacheHit(_) => s.(cached := s.cached + 1)
    case Forwarded => s.(fwd := s.fwd + 1)
    case Upstream => s
  }

  /** The cache's fill slot (cache_set_name): the name and family the next
      reply from upstream is stored under; the empty name stores nothing. */
  datatype CacheSlot = CacheSlot(name: string, ipv6: bool)

  const NO_SLOT: CacheSlot := CacheSlot("", false)

  /** The slot after the query: left alone by a structural drop, cleared by
      every packet that passes the length check, and set to the query's
      name when a cacheable query misses the cache. */
  function SlotAfter(slot: CacheSlot, p: seq<byte>, cfg: Config, svc: Services, lint: Decoder): (r: CacheSlot)
    ensures Screen(p, lint).Rejected? ==> r == slot
    ensures Screen(p, lint).Accepted? ==>
      r == NO_SLOT || r == CacheSlot(Screen(p, lint).q.domain, WantsIpv6(Screen(p, lint).q))
  {
    match Screen(p, lint)
    case Rejected(_) => slot
    case Accepted(_, q) =>
      var r := Decide(p, cfg, svc, lint);
      if (r.Forwarded? || r.Upstream?) && Cacheable(q, cfg) then CacheSlot(q.domain, WantsIpv6(q)) else NO_SLOT
  }

  /** NXDOMAIN built on top of the query (dns.c:24-28): the response bit,
      the recursion flags and the name error code are set in bytes 2 and 3. */
  function NxdomainOf(b: seq<byte>): (r: seq<byte>)
    requires |b| >= 4
    ensures |r| == |b| && r[2] == 0x81 && r[3] == 0x83
    ensures forall i :: 0 <= i < |b| && i != 2 && i != 3 ==> r[i] == b[i]
  {
    b[2 := 0x81][3 := 0x83]
  }

  /** The buffer after the query: rewritten only on the NXDOMAIN routes. */
  function BufferAfter(b: seq<byte>, r: Route): seq<byte>
    requires |b| >= 4
  {
    if r.Nxdomain? then NxdomainOf(b) else b
  }

  // ---------------------------------------------------------------
  // The pipeline's state and its operation
  // ---------------------------------------------------------------

  /** build_response_nxdomain: bytes 2 and 3 rewritten in place. */
  method BuildResponseNxdomain(pkt: array<byte>)
    requires pkt.Length >= 4
    modifies pkt
    ensures pkt[..] == NxdomainOf(old(pkt[..]))
  {
    pkt[2] := 0x81;
    pkt[3] := 0x83;
  }

  /** The state dns_parser updates: the statistics and the cache's fill slot. */
  class Gateway {
    var stats: Stats
    var slot: CacheSlot

    constructor ()
      ensures stats == Stats(0, 0, 0, 0) && slot == NO_SLOT
    {
      stats := Stats(0, 0, 0, 0);
      slot := NO_SLOT;
    }

    /** dns_parser on the `len` bytes at the start of `buf`, the receive
        buffer of MAXBUF bytes. */
    method Parse(buf: array<byte>, len: nat, cfg: Config, svc: Services, lint: Decoder)
      returns (dest: Destination, reply: Reply, outLen: nat)
      requires len <= buf.Length && 4 <= buf.Length
      modifies this`stats, this`slot, buf
      ensures var r := Decide(old(buf[..len]), cfg, svc, lint);
        dest == DestinationOf(r) && reply == ReplyOf(r) && outLen == LengthAfter(r, len)
        && stats == StatsAfter(old(stats), r)
        && slot == SlotAfter(old(slot), old(buf[..len]), cfg, svc, lint)
        && buf[..] == BufferAfter(old(buf[..]), r)
    {
      var p := buf[..len];
      var oh := lint.header(p);
      if oh.None? {
        return DestDrop, Null, len;
      }
      var h := oh.value;
      if h.flags & FLAG_QR != 0 {
        return DestDrop, Null, len;
      }
      if h.flags & FLAG_OPCODE != 0 {
        return DestDrop, Null, len;
      }
      if h.questions != 1 || h.answer != 0 || h.authority != 0 || h.additional != 0 {
        return DestDrop, Null, len;
      }
      var oq := lint.question(p);
      if oq.None? {
        return DestDrop, Null, len;
      }
      var q := oq.value;
      if HEADER_SIZE + q.consumed != len {
        return DestDrop, Null, len;
      }
      slot := NO_SLOT;

      label nxdomain: {
        if !cfg.allowAllQueries {
          if q.qtype == TYPE_A {
          } else if q.qtype == TYPE_AAAA {
            if !cfg.ipv6 {
              stats := stats.(rx := stats.rx - 1, drop := stats.drop - 1);
              break nxdomain;
            }
          } else if q.qtype == TYPE_PTR {
            break nxdomain;
          } else {
            return DestDrop, Null, len;
          }
        }
        if svc.whitelistActive && svc.whitelistBlocked(q.domain) {
          break nxdomain;
        }
        if !cfg.noFilter {
          var blocking := svc.filterBlocked(q.domain);
          if blocking.Some? {
            break nxdomain;
          }
        }
        if '.' !in q.domain {
          break nxdomain;
        }
        var ipv6 := q.qtype == TYPE_AAAA;
        if q.len <= cfg.cacheNameLen {
          var rv := svc.cacheCheck(h.id, q.domain, ipv6);
          if rv.Some? {
            stats := stats.(cached := stats.cached + 1);
            return DestLocal, CacheBuffer(rv.value), |rv.value|;
          }
          slot := CacheSlot(q.domain, ipv6);
        }
        if svc.forwarderCheck(q.domain, q.dlen) {
          stats := stats.(fwd := stats.fwd + 1);
          return DestForwarding, Null, len;
        }
        return DestSsl, Null, len;
      }
      // drop_nxdomain
      stats := stats.(drop := stats.drop + 1);
      BuildResponseNxdomain(buf);
      return DestLocal, InputBuffer, len;
    }
  }

  // ---------------------------------------------------------------
  // The keepalive query (dns_keepalive, dns.c:207-218)
  // ---------------------------------------------------------------

  /** A standard query with recursion desired for the A record of
      www.example.com, class IN. */
  const KEEPALIVE: seq<byte> := [
    0x00, 0x00, 0x01, 0x00, 0x00, 0x01, 0x00, 0x00, 0x00, 0x00, 0x00, 0x00, 0x03, 0x77, 0x77, 0x77,
    0x07, 0x65, 0x78, 0x61, 0x6d, 0x70, 0x6c, 0x65, 0x03, 0x63, 0x6f, 0x6d, 0x00, 0x00, 0x01, 0x00,
    0x01]

  /** A 16-bit field in network byte order. */
  function Word(p: seq<byte>, i: nat): nat
    requires i + 2 <= |p|
  {
    p[i] as nat * 256 + p[i + 1] as nat
  }

  /** The header as the wire format lays it out. */
  function WireHeader(p: seq<byte>): (h: Header)
    requires |p| >= HEADER_SIZE
    ensures h.id < 0x1_0000 && h.questions < 0x1_0000 && h.answer < 0x1_0000
    ensures h.authority < 0x1_0000 && h.additional < 0x1_0000
  {
    Header(Word(p, 0), Word(p, 2) as bv16, Word(p, 4), Word(p, 6), Word(p, 8), Word(p, 10))
  }

  /** A name in the wire format: each label behind its length, then the root. */
  function WireName(labels: seq<seq<byte>>): seq<byte>
    requires forall i :: 0 <= i < |labels| ==> |labels[i]| < 64
  {
    if labels == [] then [0] else [|labels[0]| as byte] + labels[0] + WireName(labels[1..])
  }

  /** The 16-bit fields of the keepalive header. */
  lemma KeepaliveWords()
    ensures |KEEPALIVE| == 33
    ensures Word(KEEPALIVE, 0) == 0 && Word(KEEPALIVE, 2) == 0x0100 && Word(KEEPALIVE, 4) == 1
    ensures Word(KEEPALIVE, 6) == 0 && Word(KEEPALIVE, 8) == 0 && Word(KEEPALIVE, 10) == 0
  {
    var h := KEEPALIVE[..HEADER_SIZE];
    assert h == [0x00, 0x00, 0x01, 0x00, 0x00, 0x01, 0x00, 0x00, 0x00, 0x00, 0x00, 0x00];
    assert Word(KEEPALIVE, 0) == Word(h, 0) && Word(KEEPALIVE, 2) == Word(h, 2) && Word(KEEPALIVE, 4) == Word(h, 4);
    assert Word(KEEPALIVE, 6) == Word(h, 6) && Word(KEEPALIVE, 8) == Word(h, 8) && Word(KEEPALIVE, 10) == Word(h, 10);
  }

  /** The type and class words at the end of the keepalive question. */
  lemma KeepaliveTypeClass()
    ensures Word(KEEPALIVE, 29) == TYPE_A && Word(KEEPALIVE, 31) == 1
  {
    var t := KEEPALIVE[29..];
    assert t == [0x00, 0x01, 0x00, 0x01];
    assert Word(KEEPALIVE, 29) == Word(t, 0) && Word(KEEPALIVE, 31) == Word(t, 2);
  }

  /** The keepalive query is 33 bytes: a header with flags 0x0100 (a
      standard query, recursion desired) and counts {1, 0, 0, 0}, which
      pass the flag and count checks, and after it a question of type A,
      class IN, that ends at the last byte. */
  lemma KeepaliveHeader()
    ensures |KEEPALIVE| == 33
    ensures WireHeader(KEEPALIVE) == Header(0, 0x0100, 1, 0, 0, 0)
    ensures FlagsOk(WireHeader(KEEPALIVE)) && CountsOk(WireHeader(KEEPALIVE))
    ensures Word(KEEPALIVE, 29) == TYPE_A && Word(KEEPALIVE, 31) == 1
  {
    KeepaliveWords();
    KeepaliveTypeClass();
    RecursionDesiredQuery();
    StandardQueryFlags(Word(KEEPALIVE, 2));
  }

  /** The flags 0x0100 pass the flag checks. */
  lemma RecursionDesiredQuery()
    ensures FlagsOk(Header(0, 0x0100, 1, 0, 0, 0)) && CountsOk(Header(0, 0x0100, 1, 0, 0, 0))
  {
    assert (0x0100 as bv16) & FLAG_QR == 0 && (0x0100 as bv16) & FLAG_OPCODE == 0;
  }

  lemma StandardQueryFlags(w: nat)
    requires w == 0x0100
    ensures w as bv16 == 0x0100
  {
  }

  const WWW: seq<byte> := [0x77, 0x77, 0x77]
  const EXAMPLE: seq<byte> := [0x65, 0x78, 0x61, 0x6d, 0x70, 0x6c, 0x65]
  const COM: seq<byte> := [0x63, 0x6f, 0x6d]

  lemma KeepaliveLabels()
    ensures Ascii("www") == WWW && Ascii("example") == EXAMPLE && Ascii("com") == COM
  {
  }

  lemma KeepaliveWireName()
    ensures WireName([WWW, EXAMPLE, COM]) == KEEPALIVE[HEADER_SIZE..29]
  {
    var name := [WWW, EXAMPLE, COM];
    assert WireName(name[2..]) == [3] + COM + [0];
    assert WireName(name[1..]) == [7] + EXAMPLE + WireName(name[2..]);
  }

  /** The question's name is www.example.com. */
  lemma KeepaliveName()
    ensures KEEPALIVE[HEADER_SIZE..29] == WireName([Ascii("www"), Ascii("example"), Ascii("com")])
  {
    KeepaliveLabels();
    KeepaliveWireName();
  }

  /** A decoder that reads the keepalive header as laid out on the wire and
      finds its 21-byte question lets it through the structural checks. */
  lemma KeepaliveScreened(lint: Decoder, q: Question)
    requires lint.header(KEEPALIVE) == Some(WireHeader(KEEPALIVE))
    requires lint.question(KEEPALIVE) == Some(q) && q.consumed == 21
    ensures Screen(KEEPALIVE, lint) == Accepted(Header(0, 0x0100, 1, 0, 0, 0), q)
  {
    KeepaliveHeader();
  }

  /** dns_keepalive: the keepalive query is copied into a fresh buffer of
      MAXBUF bytes and exchanged over the session; the answer is dropped. */
  method DnsKeepalive(t: Ssl.Transport, request: seq<byte>,
                      lint: seq<byte> -> Ssl.RxVerdict, ttlError: int, ttl: int)
    requires t.Valid() && t.maxBuf >= |KEEPALIVE|
    requires t.state == Ssl.SslOpen && t.ssl ==> |request| + |KEEPALIVE| < t.maxBuf
    modifies t`writeScript, t`readScript, t`sent, t`stores, t`state, t`ssl
    ensures t.Valid()
    ensures var x := Ssl.Rxtx(old(t.state == Ssl.SslOpen && t.ssl), old(t.writeScript), old(t.readScript),
                              t.maxBuf, lint, ttlError, ttl);
      t.writeScript == x.writesLeft && t.readScript == x.readsLeft
      && t.sent == old(t.sent) + Ssl.Repeat(request + KEEPALIVE, x.writeAttempts)
      && t.stores == old(t.stores) + Ssl.StoresOf(x.stored)
      && t.state == (if Ssl.Closes(x.status) then Ssl.SslClosed else old(t.state))
      && t.ssl == (if Ssl.Closes(x.status) then false else old(t.ssl))
  {
    var buf := new byte[t.maxBuf];
    forall i | 0 <= i < |KEEPALIVE| {
      buf[i] := KEEPALIVE[i];
    }
    assert buf[..|KEEPALIVE|] == KEEPALIVE;
    var answered := t.Exchange(buf, |KEEPALIVE|, request, lint, ttlError, ttl);
  }

  // ---------------------------------------------------------------
  // Properties of the decision
  // ---------------------------------------------------------------

  /** The structural checks, in the order dns_parser applies them, and a
      packet is accepted exactly when it passes every one of them. */
  lemma ScreenOrder(p: seq<byte>, lint: Decoder)
    ensures lint.header(p).None? ==> Screen(p, lint) == Rejected(BadHeader)
    ensures lint.header(p).Some? && lint.header(p).value.flags & FLAG_QR != 0 ==> Screen(p, lint) == Rejected(NotQuery)
    ensures lint.header(p).Some? && lint.header(p).value.flags & FLAG_QR == 0 && lint.header(p).value.flags & FLAG_OPCODE != 0 ==>
      Screen(p, lint) == Rejected(BadFlags)
    ensures lint.header(p).Some? && FlagsOk(lint.header(p).value) && !CountsOk(lint.header(p).value) ==>
      Screen(p, lint) == Rejected(BadCounts)
    ensures (lint.header(p).Some? && FlagsOk(lint.header(p).value) && CountsOk(lint.header(p).value) && lint.question(p).Some? &&
             !EndsAtLast(p, lint.question(p).value)) ==> Screen(p, lint) == Rejected(BadLength)
    ensures Screen(p, lint).Accepted? <==>
      lint.header(p).Some? && FlagsOk(lint.header(p).value) && CountsOk(lint.header(p).value) &&
      lint.question(p).Some? && EndsAtLast(p, lint.question(p).value)
    ensures Screen(p, lint).Accepted? ==> Screen(p, lint) == Accepted(lint.header(p).value, lint.question(p).value)
  {
  }

  /** A packet the structural checks reject is dropped: DEST_DROP, no
      buffer, no counter touched, the fill slot and the buffer as they were. */
  lemma StructuralDrop(p: seq<byte>, cfg: Config, svc: Services, lint: Decoder, s: Stats, slot: CacheSlot, b: seq<byte>)
    requires Screen(p, lint).Rejected? && |b| >= 4
    ensures var r := Decide(p, cfg, svc, lint);
      r == Dropped(Screen(p, lint).why) && DestinationOf(r) == DestDrop && ReplyOf(r) == Null &&
      StatsAfter(s, r) == s && SlotAfter(slot, p, cfg, svc, lint) == slot && BufferAfter(b, r) == b
  {
  }

  /** A type A query always goes on to the name checks, whatever allow-all says. */
  lemma TypeAPassesOn(p: seq<byte>, cfg: Config, svc: Services, lint: Decoder)
    requires Screen(p, lint).Accepted? && Screen(p, lint).q.qtype == TYPE_A
    ensures Decide(p, cfg, svc, lint) == Admit(Screen(p, lint).h, Screen(p, lint).q, cfg, svc)
  {
  }

  /** An AAAA query goes on to the name checks when IPv6 is enabled,
      whatever allow-all says. */
  lemma AaaaWithIpv6PassesOn(p: seq<byte>, cfg: Config, svc: Services, lint: Decoder)
    requires Screen(p, lint).Accepted? && Screen(p, lint).q.qtype == TYPE_AAAA && cfg.ipv6
    ensures Decide(p, cfg, svc, lint) == Admit(Screen(p, lint).h, Screen(p, lint).q, cfg, svc)
  {
  }

  /** With allow-all off, a type other than A, AAAA and PTR is dropped
      without an answer, with the counters unchanged and the slot cleared. */
  lemma OtherTypesDropped(p: seq<byte>, cfg: Config, svc: Services, lint: Decoder, s: Stats, slot: CacheSlot, b: seq<byte>)
    requires Screen(p, lint).Accepted? && !cfg.allowAllQueries && |b| >= 4
    requires Screen(p, lint).q.qtype !in {TYPE_A, TYPE_AAAA, TYPE_PTR}
    ensures var r := Decide(p, cfg, svc, lint);
      r == Dropped(TypeRejected) && DestinationOf(r) == DestDrop && ReplyOf(r) == Null &&
      StatsAfter(s, r) == s && SlotAfter(slot, p, cfg, svc, lint) == NO_SLOT && BufferAfter(b, r) == b
  {
  }

  /** With allow-all off, a PTR query is answered NXDOMAIN in the input
      buffer, counted as one more drop. */
  lemma PtrAnsweredNxdomain(p: seq<byte>, cfg: Config, svc: Services, lint: Decoder, s: Stats, b: seq<byte>)
    requires Screen(p, lint).Accepted? && !cfg.allowAllQueries && Screen(p, lint).q.qtype == TYPE_PTR && |b| >= 4
    ensures var r := Decide(p, cfg, svc, lint);
      r == Nxdomain(Ptr) && DestinationOf(r) == DestLocal && ReplyOf(r) == InputBuffer &&
      StatsAfter(s, r) == s.(drop := s.drop + 1) && BufferAfter(b, r) == NxdomainOf(b)
  {
  }

  /** With allow-all and IPv6 off, an AAAA query is answered NXDOMAIN with
      the receive count taken back and the drop count unchanged. */
  lemma AaaaWithoutIpv6(p: seq<byte>, cfg: Config, svc: Services, lint: Decoder, s: Stats, b: seq<byte>)
    requires Screen(p, lint).Accepted? && !cfg.allowAllQueries && !cfg.ipv6 && Screen(p, lint).q.qtype == TYPE_AAAA && |b| >= 4
    ensures var r := Decide(p, cfg, svc, lint);
      r == Nxdomain(Ipv6Disabled) && DestinationOf(r) == DestLocal && ReplyOf(r) == InputBuffer &&
      StatsAfter(s, r) == s.(rx := s.rx - 1) && BufferAfter(b, r) == NxdomainOf(b)
  {
  }

  /** The name checks come in a fixed order: the whitelist first, then the
      block lists, then the dotless search names, each answered NXDOMAIN and
      counted as a drop. */
  lemma NameCheckOrder(h: Header, q: Question, cfg: Config, svc: Services, s: Stats)
    ensures svc.whitelistActive && svc.whitelistBlocked(q.domain) ==> Admit(h, q, cfg, svc) == Nxdomain(NotWhitelisted)
    ensures !(svc.whitelistActive && svc.whitelistBlocked(q.domain)) && !cfg.noFilter && svc.filterBlocked(q.domain).Some? ==>
      Admit(h, q, cfg, svc) == Nxdomain(Filtered(svc.filterBlocked(q.domain).value))
    ensures (!(svc.whitelistActive && svc.whitelistBlocked(q.domain)) && (cfg.noFilter || svc.filterBlocked(q.domain).None?) &&
             '.' !in q.domain) ==> Admit(h, q, cfg, svc) == Nxdomain(Dotless)
    ensures Admit(h, q, cfg, svc).Nxdomain? ==> StatsAfter(s, Admit(h, q, cfg, svc)) == s.(drop := s.drop + 1)
  {
  }

  /** A query reaches the cache, the forwarder or the resolver only when it
      has passed every check before them; in particular its name has a dot. */
  lemma RoutedPassedChecks(p: seq<byte>, cfg: Config, svc: Services, lint: Decoder)
    requires var r := Decide(p, cfg, svc, lint); r.CacheHit? || r.Forwarded? || r.Upstream?
    ensures Screen(p, lint).Accepted?
    ensures var q := Screen(p, lint).q;
      TypePolicy(q, cfg).None? && '.' in q.domain && !(svc.whitelistActive && svc.whitelistBlocked(q.domain)) &&
      (!cfg.noFilter ==> svc.filterBlocked(q.domain).None?)
    ensures Decide(p, cfg, svc, lint) == Routing(Screen(p, lint).h, Screen(p, lint).q, cfg, svc)
  {
  }

  /** A cache hit: only for a name of at most CACHE_NAME_LEN, with the
      cached reply returned as DEST_LOCAL and one more cached count. */
  lemma CacheHitRoute(h: Header, q: Question, cfg: Config, svc: Services, s: Stats)
    ensures Routing(h, q, cfg, svc).CacheHit? <==> Cacheable(q, cfg) && svc.cacheCheck(h.id, q.domain, WantsIpv6(q)).Some?
    ensures Routing(h, q, cfg, svc).CacheHit? ==>
      var r := Routing(h, q, cfg, svc);
      r.reply == svc.cacheCheck(h.id, q.domain, WantsIpv6(q)).value &&
      DestinationOf(r) == DestLocal && ReplyOf(r) == CacheBuffer(r.reply) && StatsAfter(s, r) == s.(cached := s.cached + 1)
  {
  }

  /** A miss goes to the forwarder when one claims the name (DEST_FORWARDING,
      one more forwarded count), and otherwise upstream over DoH (DEST_SSL,
      no counter touched), both without a buffer. */
  lemma MissRoute(h: Header, q: Question, cfg: Config, svc: Services, s: Stats)
    requires !Routing(h, q, cfg, svc).CacheHit?
    ensures var r := Routing(h, q, cfg, svc);
      (r == Forwarded <==> svc.forwarderCheck(q.domain, q.dlen)) && (r == Upstream <==> !svc.forwarderCheck(q.domain, q.dlen)) &&
      ReplyOf(r) == Null &&
      (r == Forwarded ==> DestinationOf(r) == DestForwarding && StatsAfter(s, r) == s.(fwd := s.fwd + 1)) &&
      (r == Upstream ==> DestinationOf(r) == DestSsl && StatsAfter(s, r) == s)
  {
  }

  /** Every packet that passes the length check leaves the fill slot
      cleared, except that a name that passed the type policy and the name
      checks, is short enough for the cache and missed it, stages itself
      and its address family in the slot for the reply. */
  lemma SlotStaged(p: seq<byte>, cfg: Config, svc: Services, lint: Decoder, slot: CacheSlot)
    requires Screen(p, lint).Accepted?
    ensures var h := Screen(p, lint).h; var q := Screen(p, lint).q;
      SlotAfter(slot, p, cfg, svc, lint) != NO_SLOT <==>
        TypePolicy(q, cfg).None? && NameChecks(q, cfg, svc).None? && Cacheable(q, cfg) &&
        svc.cacheCheck(h.id, q.domain, WantsIpv6(q)).None?
    ensures var q := Screen(p, lint).q;
      SlotAfter(slot, p, cfg, svc, lint) == NO_SLOT || SlotAfter(slot, p, cfg, svc, lint) == CacheSlot(q.domain, WantsIpv6(q))
  {
    var q := Screen(p, lint).q;
    if NameChecks(q, cfg, svc).None? {
      assert '.' in q.domain;
    }
  }

  /** Only the NXDOMAIN routes touch the input buffer, and then only bytes 2
      and 3; its length never changes. */
  lemma BufferOnlyForNxdomain(b: seq<byte>, r: Route)
    requires |b| >= 4
    ensures |BufferAfter(b, r)| == |b|
    ensures forall i :: 0 <= i < |b| && i != 2 && i != 3 ==> BufferAfter(b, r)[i] == b[i]
    ensures !r.Nxdomain? ==> BufferAfter(b, r) == b
    ensures r.Nxdomain? <==> ReplyOf(r) == InputBuffer
  {
  }
}

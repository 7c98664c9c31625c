/** Four places where ssl_rxtx_dns, as written, does not do what it
    evidently means to. Each is modelled here as written, with the input
    that shows the discrepancy; the Ssl module models the intended
    behaviour and proves it. */
module SslAsWritten {
  import opened Bytes
  import opened Ssl

  // ---------------------------------------------------------------
  // The NUL after the first read (ssl.c:229-241)
  // ---------------------------------------------------------------

  /** As written, both attempts of the first read ask for MAXBUF bytes. */
  function FirstReadAsWritten(maxBuf: nat): nat {
    maxBuf
  }

  /** With MAXBUF bytes waiting, the first read as written fills the whole
      buffer, so the NUL stored at buf[len] lands at buf[MAXBUF], one past
      the end of the buffer. */
  lemma NulPastEndAsWritten(maxBuf: nat)
    requires maxBuf > 0
    ensures var rs := [Received(Repeat<byte>(65, maxBuf))];
      ReadRetry(rs, FirstReadAsWritten(maxBuf)).data == Some(Repeat<byte>(65, maxBuf)) &&
      |ReadRetry(rs, FirstReadAsWritten(maxBuf)).data.value| == maxBuf
  {
  }

  // ---------------------------------------------------------------
  // The retry inside the read-more loop (ssl.c:293-312)
  // ---------------------------------------------------------------

  /** The buffer with `d` written at offset `off`. */
  function Put(buf: seq<byte>, off: nat, d: seq<byte>): (r: seq<byte>)
    requires off + |d| <= |buf|
    ensures |r| == |buf|
  {
    buf[..off] + d + buf[off + |d|..]
  }

  /** Where the read-more loop leaves the buffer and its length. */
  datatype Loop = Loop(ok: bool, buf: seq<byte>, len: nat)

  /** The read-more loop as written, over a buffer of MAXBUF = |buf| bytes:
      a read goes to buf + len for at most total - len bytes, but the retry
      after a stall reads up to MAXBUF bytes into the start of the buffer,
      while len still grows by the count read. */
  function ReadMoreAsWritten(buf: seq<byte>, rs: seq<ReadEvent>, len: nat, total: nat): (r: Loop)
    requires 0 < |buf| && total <= |buf|
    ensures |r.buf| == |buf| && r.len >= len
    ensures r.ok ==> r.len >= total
    ensures !r.ok ==> r.len < total
    decreases total - len
  {
    if len >= total then Loop(true, buf, len)
    else
      var a := ReadOnce(rs, total - len);
      if a.read.Got? then
        ReadMoreAsWritten(Put(buf, len, a.read.data), a.rest, len + |a.read.data|, total)
      else if !a.read.shouldRetry then Loop(false, buf, len)
      else
        var b := ReadOnce(a.rest, |buf|);
        if b.read.Stalled? then Loop(false, buf, len)
        else ReadMoreAsWritten(Put(buf, 0, b.read.data), b.rest, len + |b.read.data|, total)
  }

  /** A header of 4 bytes announcing 2 bytes of answer, in a buffer of 8:
      after a stall, the 2 bytes the resolver sends overwrite the header,
      and the answer copied from buf + len - datalen is the two stale zero
      bytes, where the intended loop delivers the bytes sent. When the
      resolver has 8 bytes ready instead, len ends at 12, past MAXBUF. */
  lemma StallRetryAsWritten()
    ensures var buf: seq<byte> := [9, 9, 9, 9, 0, 0, 0, 0];
      var rs := [ReadFailed(true), Received([1, 2])];
      var lp := ReadMoreAsWritten(buf, rs, 4, 6);
      lp == Loop(true, [1, 2, 9, 9, 0, 0, 0, 0], 6) && lp.buf[lp.len - 2..lp.len] == [0, 0] &&
      ReadMore(rs, 4, 6) == Fill(Some([1, 2]), [])
    ensures var buf: seq<byte> := [9, 9, 9, 9, 0, 0, 0, 0];
      ReadMoreAsWritten(buf, [ReadFailed(true), Received(Repeat<byte>(1, 8))], 4, 6).len == 12
  {
    var buf: seq<byte> := [9, 9, 9, 9, 0, 0, 0, 0];
    var rs := [ReadFailed(true), Received([1, 2])];
    assert ReadOnce(rs, 2) == Step(Stalled(true), rs[1..]);
    assert ReadOnce(rs[1..], 8) == Step(Got([1, 2]), []);
    assert Put(buf, 0, [1, 2]) == [1, 2, 9, 9, 0, 0, 0, 0];
    var lp := ReadMoreAsWritten(buf, rs, 4, 6);
    assert lp.buf[4..6] == [0, 0];
    var f := ReadRetry(rs, 2);
    assert f == Fetch(Some([1, 2]), [], 2);
    assert ReadMore(rs, 4, 6) == ReadMoreFrom(rs, 4, 6);
    assert ReadMore([], 6, 6) == Fill(Some([]), []);
    assert [1, 2] + [] == [1, 2];
    var eight := Repeat<byte>(1, 8);
    var rs8 := [ReadFailed(true), Received(eight)];
    assert ReadOnce(rs8, 2) == Step(Stalled(true), rs8[1..]);
    assert ReadOnce(rs8[1..], 8) == Step(Got(eight), []);
  }

  // ---------------------------------------------------------------
  // A negative or huge Content-Length (ssl.c:277-315)
  // ---------------------------------------------------------------

  /** 2^64: memcpy takes its size as a 64-bit size_t. */
  const SIZE_T: nat := 0x1_0000_0000_0000_0000

  /** INT_MAX of a 32-bit int, the largest value "%d" stores. */
  const INT_MAX: nat := 0x7fff_ffff

  /** A sum as a 32-bit int holds it: wrapped into [-2^31, 2^31). The C
      standard leaves a signed overflow undefined; this is what two's
      complement machines do. */
  function Int32(x: int): (r: int)
    ensures -(INT_MAX + 1) <= r <= INT_MAX && (r - x) % 0x1_0000_0000 == 0
  {
    (x + INT_MAX + 1) % 0x1_0000_0000 - (INT_MAX + 1)
  }

  datatype CopyAsWritten = Quiet | Refused | ReadsMore | Copy(from: int, size: nat)

  /** The length checks and the copy as written, for a header of `hlen`
      bytes naming `datalen`, after a first read of `len` bytes: only a
      length of exactly 0 ends the exchange quietly, the total is the int
      `(int) hlen + datalen`, and when no more needs reading the copy
      starts at buf + len - datalen with datalen converted to size_t. */
  function CopyOfAsWritten(hlen: nat, datalen: int, len: nat, maxBuf: nat): (r: CopyAsWritten)
    ensures r == Quiet <==> datalen == 0
    ensures r == Refused ==> datalen != 0 && Int32(hlen + datalen) >= maxBuf
    ensures r.Copy? ==> datalen != 0 && Int32(hlen + datalen) <= len && r.from == len - datalen
    ensures r.Copy? && 0 < datalen <= INT_MAX ==> r.size == datalen
  {
    var total := Int32(hlen + datalen);
    if datalen == 0 then Quiet
    else if total >= maxBuf then Refused
    else if len < total then ReadsMore
    else Copy(len - datalen, datalen % SIZE_T)
  }

  /** sscanf's "%d" reads "-5" as -5. */
  lemma MinusFiveScans()
    ensures ScanInt(['-' as byte, '5' as byte]) == Some(-5)
  {
    var s: seq<byte> := ['-' as byte, '5' as byte];
    assert SkipSpaces(s) == s;
    assert s[1..] == ['5' as byte];
    assert DigitRun(s[1..]) == ['5' as byte] + DigitRun([]);
    assert DigitsValue(['5' as byte]) == 5;
  }

  /** "Content-Length: -5" passes the checks as written: the loop is skipped
      and memcpy is asked to copy 2^64 - 5 bytes from five bytes past the
      end of what was read. */
  lemma NegativeLengthAsWritten(hlen: nat, len: nat, maxBuf: nat)
    requires hlen <= len < maxBuf <= INT_MAX
    ensures CopyOfAsWritten(hlen, -5, len, maxBuf) == Copy(len + 5, SIZE_T - 5)
  {
  }

  /** The intended behaviour, which Ssl.FrameOf gives: a length that is not
      positive ends the exchange like a length of 0, before any copy. */
  lemma NegativeLengthQuiet(first: seq<byte>, maxBuf: nat)
    requires ParseHead(first).Framed? && ParseHead(first).datalen < 0
    ensures FrameOf(first, maxBuf) == EmptyBody && !Closes(Unframed(FrameOf(first, maxBuf)))
  {
    FrameOfFacts(first, maxBuf);
  }

  /** "Content-Length: 2147483647" after a header of 38 bytes: as written
      the int total wraps to a negative value, passes the MAXBUF bound and
      skips the loop, and memcpy copies 2^31 - 1 bytes from far before the
      start of the buffer. */
  lemma OverflowAsWritten(len: nat, maxBuf: nat)
    requires 38 <= len < maxBuf <= INT_MAX
    ensures Int32(38 + INT_MAX) < 0
    ensures CopyOfAsWritten(38, INT_MAX, len, maxBuf) == Copy(len - INT_MAX, INT_MAX)
    ensures len - INT_MAX < 0
  {
    assert Int32(38 + INT_MAX) == 38 + INT_MAX - 0x1_0000_0000;
  }

  /** "%d" stores INT_MAX from its decimal text. */
  lemma IntMaxScans(rest: seq<byte>)
    requires rest == [] || !IsDigit(rest[0])
    ensures ScanInt(Decimal(INT_MAX) + rest) == Some(INT_MAX)
  {
    ScanDecimal(INT_MAX, rest);
  }

  /** The intended behaviour, which Ssl.FrameOf gives: the total is computed
      without overflow, so a length that does not fit beside the header is
      refused and the session closed. */
  lemma HugeLengthRefused(first: seq<byte>, maxBuf: nat)
    requires maxBuf > 0 && ParseHead(first).Framed? && ParseHead(first).datalen >= maxBuf
    ensures FrameOf(first, maxBuf) == TooLong && Closes(Unframed(FrameOf(first, maxBuf)))
  {
    FrameOfFacts(first, maxBuf);
  }
}

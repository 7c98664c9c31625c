/** Bytes, C strings and the libc routines the gateway relies on:
    strstr, strcasestr and the "%d" conversion of sscanf. */
module Bytes {

  type byte = x: int | 0 <= x < 256

  datatype Option<T> = None | Some(value: T)

  /** The bytes of a text written in ASCII. */
  function Ascii(s: string): seq<byte>
    requires forall i :: 0 <= i < |s| ==> s[i] as int < 256
  {
    seq(|s|, i requires 0 <= i < |s| => s[i] as int)
  }

  /** `pat` occurs in `s` at offset `i`. */
  predicate OccursAt<T(==)>(s: seq<T>, pat: seq<T>, i: int) {
    0 <= i && i + |pat| <= |s| && s[i..i + |pat|] == pat
  }

  /** The first offset at or after `from` where `pat` occurs in `s`. */
  function FindFrom<T(==)>(s: seq<T>, pat: seq<T>, from: nat): Option<nat>
    decreases |s| - from
  {
    if from + |pat| > |s| then None
    else if s[from..from + |pat|] == pat then Some(from)
    else FindFrom(s, pat, from + 1)
  }

  /** FindFrom finds the first occurrence at or after `from`, and None
      means there is none. */
  lemma {:induction false} FindFromFacts<T>(s: seq<T>, pat: seq<T>, from: nat)
    decreases |s| - from
    ensures FindFrom(s, pat, from).Some? ==>
      var r := FindFrom(s, pat, from).value;
      from <= r && OccursAt(s, pat, r) && forall j :: from <= j < r ==> !OccursAt(s, pat, j)
    ensures FindFrom(s, pat, from).None? ==> forall j :: from <= j ==> !OccursAt(s, pat, j)
  {
    if from + |pat| <= |s| && s[from..from + |pat|] != pat {
      FindFromFacts(s, pat, from + 1);
    }
  }

  /** strstr: the first occurrence of `pat` in `s`. */
  function Find<T(==)>(s: seq<T>, pat: seq<T>): (r: Option<nat>)
  {
    FindFrom(s, pat, 0)
  }

  /** strstr returns the first occurrence of `pat`, or None when `pat`
      occurs nowhere in `s`. */
  lemma FindFacts<T>(s: seq<T>, pat: seq<T>)
    ensures Find(s, pat).Some? ==> OccursAt(s, pat, Find(s, pat).value)
    ensures Find(s, pat).Some? ==> forall j :: 0 <= j < Find(s, pat).value ==> !OccursAt(s, pat, j)
    ensures Find(s, pat).None? ==> forall j :: 0 <= j ==> !OccursAt(s, pat, j)
  {
    FindFromFacts(s, pat, 0);
  }

  predicate Contains<T(==)>(s: seq<T>, pat: seq<T>) {
    Find(s, pat).Some?
  }

  /** What follows a found occurrence does not change where it is found. */
  lemma {:induction false} FindFromExtends<T>(s: seq<T>, t: seq<T>, pat: seq<T>, from: nat)
    requires FindFrom(s, pat, from).Some?
    decreases |s| - from
    ensures FindFrom(s + t, pat, from) == FindFrom(s, pat, from)
  {
    assert (s + t)[from..from + |pat|] == s[from..from + |pat|];
    if s[from..from + |pat|] != pat {
      FindFromExtends(s, t, pat, from + 1);
    }
  }

  lemma FindExtends<T>(s: seq<T>, t: seq<T>, pat: seq<T>)
    requires Find(s, pat).Some?
    ensures Find(s + t, pat) == Find(s, pat)
  {
    FindFromExtends(s, t, pat, 0);
  }

  /** The C string stored in `s`: every byte before the first NUL. */
  function CStr(s: seq<byte>): (r: seq<byte>)
    ensures |r| <= |s|
  {
    if s == [] || s[0] == 0 then [] else [s[0]] + CStr(s[1..])
  }

  /** The C string is a prefix of the buffer, holds no NUL, and is
      followed by the terminator when it ends inside the buffer. */
  lemma {:induction false} CStrFacts(s: seq<byte>)
    ensures |CStr(s)| <= |s| && CStr(s) == s[..|CStr(s)|]
    ensures forall i :: 0 <= i < |CStr(s)| ==> CStr(s)[i] != 0
    ensures |CStr(s)| < |s| ==> s[|CStr(s)|] == 0
  {
    if s != [] && s[0] != 0 {
      CStrFacts(s[1..]);
    }
  }

  /** A text without NUL is the start of the C string of any buffer it begins. */
  lemma {:induction false} CStrOfPrefix(h: seq<byte>, b: seq<byte>)
    requires forall i :: 0 <= i < |h| ==> h[i] != 0
    ensures CStr(h + b) == h + CStr(b)
  {
    if h == [] {
      assert h + b == b;
    } else {
      assert (h + b)[0] == h[0] && (h + b)[1..] == h[1..] + b;
      CStrOfPrefix(h[1..], b);
    }
  }

  /** tolower for one byte of the C locale. */
  function ToLower(b: byte): byte {
    if 'A' as int <= b <= 'Z' as int then b + 32 else b
  }

  function Lower(s: seq<byte>): seq<byte> {
    seq(|s|, i requires 0 <= i < |s| => ToLower(s[i]))
  }

  /** `a` and `b` are equal when letters are compared without case. */
  predicate SameCaseless(a: seq<byte>, b: seq<byte>) {
    Lower(a) == Lower(b)
  }

  lemma LowerSlice(s: seq<byte>, i: nat, j: nat)
    requires i <= j <= |s|
    ensures Lower(s)[i..j] == Lower(s[i..j])
  {
  }

  /** `pat` occurs in `s` at offset `i` when case is ignored. */
  predicate CaselessAt(s: seq<byte>, pat: seq<byte>, i: int) {
    0 <= i && i + |pat| <= |s| && SameCaseless(s[i..i + |pat|], pat)
  }

  /** strcasestr: the first offset where `pat` occurs in `s`, ignoring case. */
  function FindCaseless(s: seq<byte>, pat: seq<byte>): (r: Option<nat>)
  {
    Find(Lower(s), Lower(pat))
  }

  /** strcasestr returns the first caseless occurrence, or None when
      there is none. */
  lemma FindCaselessFacts(s: seq<byte>, pat: seq<byte>)
    ensures FindCaseless(s, pat).Some? ==> CaselessAt(s, pat, FindCaseless(s, pat).value)
    ensures FindCaseless(s, pat).Some? ==>
      forall j :: 0 <= j < FindCaseless(s, pat).value ==> !CaselessAt(s, pat, j)
    ensures FindCaseless(s, pat).None? ==> forall j :: 0 <= j ==> !CaselessAt(s, pat, j)
  {
    FindFacts(Lower(s), Lower(pat));
    CaselessMatches(s, pat);
  }

  lemma CaselessMatches(s: seq<byte>, pat: seq<byte>)
    ensures forall j :: CaselessAt(s, pat, j) <==> OccursAt(Lower(s), Lower(pat), j)
  {
    forall j
      ensures CaselessAt(s, pat, j) <==> OccursAt(Lower(s), Lower(pat), j)
    {
      if 0 <= j && j + |pat| <= |s| {
        LowerSlice(s, j, j + |pat|);
      }
    }
  }

  // ---------------------------------------------------------------
  // sscanf(p, "%d", &v)
  // ---------------------------------------------------------------

  /** isspace in the C locale: space, \t, \n, \v, \f and \r. */
  predicate IsSpace(b: byte) {
    b == 32 || 9 <= b <= 13
  }

  predicate IsDigit(b: byte) {
    '0' as int <= b <= '9' as int
  }

  predicate AllDigits(s: seq<byte>) {
    forall i :: 0 <= i < |s| ==> IsDigit(s[i])
  }

  function SkipSpaces(s: seq<byte>): seq<byte> {
    if |s| > 0 && IsSpace(s[0]) then SkipSpaces(s[1..]) else s
  }

  /** The longest run of digits at the start of `s`. */
  function DigitRun(s: seq<byte>): seq<byte> {
    if |s| > 0 && IsDigit(s[0]) then [s[0]] + DigitRun(s[1..]) else []
  }

  /** The digit run is a prefix of digits that no further digit extends. */
  lemma {:induction false} DigitRunFacts(s: seq<byte>)
    ensures |DigitRun(s)| <= |s| && DigitRun(s) == s[..|DigitRun(s)|] && AllDigits(DigitRun(s))
    ensures |DigitRun(s)| < |s| ==> !IsDigit(s[|DigitRun(s)|])
  {
    if |s| > 0 && IsDigit(s[0]) {
      DigitRunFacts(s[1..]);
    }
  }

  /** The value of a run of decimal digits, most significant first. */
  function DigitsValue(d: seq<byte>): nat
    requires AllDigits(d)
  {
    if d == [] then 0 else DigitsValue(d[..|d| - 1]) * 10 + (d[|d| - 1] - '0' as int)
  }

  /** The value "%d" stores, or None when the conversion fails (the
      destination is then left as it was). Leading white space is
      skipped and one sign is accepted before the digits. */
  function ScanInt(s: seq<byte>): (r: Option<int>)
    ensures |s| > 0 && IsDigit(s[0]) ==> r.Some? && r.value >= 0
  {
    var t := SkipSpaces(s);
    var negative := |t| > 0 && t[0] == '-' as int;
    var u := if |t| > 0 && (t[0] == '-' as int || t[0] == '+' as int) then t[1..] else t;
    var d := DigitRun(u);
    DigitRunFacts(u);
    if d == [] then None
    else if negative then Some(0 - DigitsValue(d) as int)
    else Some(DigitsValue(d))
  }

  /** The decimal text of `n`, as printf "%d" writes it. */
  function Decimal(n: nat): (r: seq<byte>)
    ensures |r| > 0 && AllDigits(r)
  {
    if n < 10 then ['0' as int + n] else Decimal(n / 10) + ['0' as int + n % 10]
  }

  lemma {:induction false} DecimalValue(n: nat)
    ensures DigitsValue(Decimal(n)) == n
  {
    if n >= 10 {
      var d := Decimal(n);
      assert d[..|d| - 1] == Decimal(n / 10);
      DecimalValue(n / 10);
    }
  }

  lemma {:induction false} DigitRunOfDigits(d: seq<byte>, rest: seq<byte>)
    requires AllDigits(d)
    requires rest == [] || !IsDigit(rest[0])
    ensures DigitRun(d + rest) == d
  {
    if d != [] {
      assert (d + rest)[1..] == d[1..] + rest;
      DigitRunOfDigits(d[1..], rest);
    } else {
      assert d + rest == rest;
    }
  }

  /** Reading back what "%d" printed: sscanf recovers the number from
      its decimal text, whatever non-digit text follows it. */
  lemma ScanDecimal(n: nat, rest: seq<byte>)
    requires rest == [] || !IsDigit(rest[0])
    ensures ScanInt(Decimal(n) + rest) == Some(n)
  {
    var s := Decimal(n) + rest;
    assert s[0] == Decimal(n)[0];
    assert SkipSpaces(s) == s;
    DigitRunOfDigits(Decimal(n), rest);
    DecimalValue(n);
  }
}

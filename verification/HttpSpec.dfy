/** HTTP requests as values: methods, the header map and its case-blind order, and the
    text that HttpRequest::dump prints. A char stands for one byte. */
module HttpSpec {
  import opened Codec

  // ---------- methods ----------

  const METHOD_COUNT := 34
  const MSEARCH := 24
  const INVALID_METHOD := 34

  /** HttpMethodToString */
  function MethodName(m: nat): (name: string)
    ensures |name| >= 3
  {
    match m
    case 0 => "DELETE" case 1 => "GET" case 2 => "HEAD" case 3 => "POST" case 4 => "PUT"
    case 5 => "CONNECT" case 6 => "OPTIONS" case 7 => "TRACE" case 8 => "COPY" case 9 => "LOCK"
    case 10 => "MKCOL" case 11 => "MOVE" case 12 => "PROPFIND" case 13 => "PROPPATCH" case 14 => "SEARCH"
    case 15 => "UNLOCK" case 16 => "BIND" case 17 => "REBIND" case 18 => "UNBIND" case 19 => "ACL"
    case 20 => "REPORT" case 21 => "MKACTIVITY" case 22 => "CHECKOUT" case 23 => "MERGE" case 24 => "M - SEARCH"
    case 25 => "NOTIFY" case 26 => "SUBSCRIBE" case 27 => "UNSUBSCRIBE" case 28 => "PATCH" case 29 => "PURGE"
    case 30 => "MKCALENDAR" case 31 => "LINK" case 32 => "UNLINK" case 33 => "SOURCE"
    case _ => "<unknown>"
  }

  /** CharsToHttpMethod: the first name, in the order of the map, that the text begins with. */
  function MethodOf(text: string, from: nat): (m: nat)
    requires from <= METHOD_COUNT
    ensures from <= m <= METHOD_COUNT
    ensures m < METHOD_COUNT ==> MethodName(m) <= text
    ensures forall j :: from <= j < m ==> !(MethodName(j) <= text)
    decreases METHOD_COUNT - from
  {
    if from == METHOD_COUNT then INVALID_METHOD
    else if MethodName(from) <= text then from
    else MethodOf(text, from + 1)
  }

  /** The method a text can begin with, by its first letters. */
  function Candidate(s: string): nat
    requires |s| >= 5
  {
    match s[0]
    case 'D' => 0
    case 'G' => 1
    case 'H' => 2
    case 'O' => 6
    case 'T' => 7
    case 'B' => 16
    case 'A' => 19
    case 'N' => 25
    case 'P' => if s[1] == 'O' then 3 else if s[1] == 'A' then 28 else if s[1] == 'R' then (if s[4] == 'F' then 12 else 13)
                else if s[2] == 'T' then 4 else 29
    case 'C' => if s[1] == 'H' then 22 else if s[2] == 'N' then 5 else 8
    case 'L' => if s[1] == 'O' then 9 else 31
    case 'M' => if s[1] == 'O' then 11 else if s[1] == 'E' then 23 else if s[1] == ' ' then 24
                else if s[2] == 'A' then 21 else if s[3] == 'O' then 10 else 30
    case 'S' => if s[1] == 'E' then 14 else if s[1] == 'U' then 26 else 33
    case 'U' => if s[2] == 'B' then 18 else if s[2] == 'S' then 27 else if s[3] == 'O' then 15 else 32
    case 'R' => if s[2] == 'B' then 17 else 20
    case _ => INVALID_METHOD
  }

  lemma CandidateOf(s: string, m: nat)
    requires |s| >= 5 && m < METHOD_COUNT && MethodName(m) <= s
    ensures Candidate(s) == m
  {
    if m < 15 {
      EarlyCandidate(s, m);
    } else {
      LateCandidate(s, m);
    }
  }

  lemma EarlyCandidate(s: string, m: nat)
    requires |s| >= 5 && m < 15 && MethodName(m) <= s
    ensures Candidate(s) == m
  {
    var n := MethodName(m);
    assert forall i :: 0 <= i < |n| ==> s[i] == n[i];
  }

  lemma LateCandidate(s: string, m: nat)
    requires |s| >= 5 && 15 <= m < METHOD_COUNT && MethodName(m) <= s
    ensures Candidate(s) == m
  {
    var n := MethodName(m);
    assert forall i :: 0 <= i < |n| ==> s[i] == n[i];
  }

  /** The name of a method is read back whatever follows it: no name begins another. */
  lemma MethodReadBack(m: nat, rest: string)
    requires m < METHOD_COUNT && |rest| >= 2
    ensures MethodOf(MethodName(m) + rest, 0) == m
  {
    var s := MethodName(m) + rest;
    assert |MethodName(m)| >= 3;
    CandidateOf(s, m);
    var k := MethodOf(s, 0);
    assert MethodName(m) <= s;
    CandidateOf(s, k);
  }

  lemma Named(m: nat, name: string, rest: string)
    requires m < METHOD_COUNT && |rest| >= 2 && MethodName(m) == name
    ensures MethodOf(name + rest, 0) == m
  {
    MethodReadBack(m, rest);
  }

  lemma PlainNames()
    ensures MethodName(0) == "DELETE" && MethodName(1) == "GET" && MethodName(2) == "HEAD"
    ensures MethodName(3) == "POST" && MethodName(4) == "PUT" && MethodName(5) == "CONNECT"
    ensures MethodName(6) == "OPTIONS" && MethodName(7) == "TRACE"
  {
  }

  /** The numbers the plain methods are read as, */
  lemma PlainNumbers(rest: string)
    requires |rest| >= 2
    ensures MethodOf("DELETE" + rest, 0) == 0 && MethodOf("GET" + rest, 0) == 1
    ensures MethodOf("HEAD" + rest, 0) == 2 && MethodOf("POST" + rest, 0) == 3
    ensures MethodOf("PUT" + rest, 0) == 4 && MethodOf("CONNECT" + rest, 0) == 5
    ensures MethodOf("OPTIONS" + rest, 0) == 6 && MethodOf("TRACE" + rest, 0) == 7
  {
    PlainNames();
    hide MethodName;
    hide MethodOf;
    Named(0, "DELETE", rest);
    Named(1, "GET", rest);
    Named(2, "HEAD", rest);
    Named(3, "POST", rest);
    Named(4, "PUT", rest);
    Named(5, "CONNECT", rest);
    Named(6, "OPTIONS", rest);
    Named(7, "TRACE", rest);
  }

  lemma DavNames1()
    ensures MethodName(8) == "COPY" && MethodName(9) == "LOCK" && MethodName(10) == "MKCOL"
    ensures MethodName(11) == "MOVE" && MethodName(12) == "PROPFIND" && MethodName(13) == "PROPPATCH"
  {
  }

  lemma DavNames2()
    ensures MethodName(14) == "SEARCH" && MethodName(15) == "UNLOCK" && MethodName(16) == "BIND"
    ensures MethodName(17) == "REBIND" && MethodName(18) == "UNBIND" && MethodName(19) == "ACL"
  {
  }

  /** those of WebDAV, */
  lemma DavNumbers(rest: string)
    requires |rest| >= 2
    ensures MethodOf("COPY" + rest, 0) == 8 && MethodOf("LOCK" + rest, 0) == 9
    ensures MethodOf("MKCOL" + rest, 0) == 10 && MethodOf("MOVE" + rest, 0) == 11
    ensures MethodOf("PROPFIND" + rest, 0) == 12 && MethodOf("PROPPATCH" + rest, 0) == 13
    ensures MethodOf("SEARCH" + rest, 0) == 14 && MethodOf("UNLOCK" + rest, 0) == 15
    ensures MethodOf("BIND" + rest, 0) == 16 && MethodOf("REBIND" + rest, 0) == 17
    ensures MethodOf("UNBIND" + rest, 0) == 18 && MethodOf("ACL" + rest, 0) == 19
  {
    DavNames1();
    DavNames2();
    hide MethodName;
    hide MethodOf;
    Named(8, "COPY", rest);
    Named(9, "LOCK", rest);
    Named(10, "MKCOL", rest);
    Named(11, "MOVE", rest);
    Named(12, "PROPFIND", rest);
    Named(13, "PROPPATCH", rest);
    Named(14, "SEARCH", rest);
    Named(15, "UNLOCK", rest);
    Named(16, "BIND", rest);
    Named(17, "REBIND", rest);
    Named(18, "UNBIND", rest);
    Named(19, "ACL", rest);
  }

  lemma OtherNames1()
    ensures MethodName(20) == "REPORT" && MethodName(21) == "MKACTIVITY" && MethodName(22) == "CHECKOUT"
    ensures MethodName(23) == "MERGE" && MethodName(24) == "M - SEARCH" && MethodName(25) == "NOTIFY"
  {
  }

  lemma OtherNames2()
    ensures MethodName(26) == "SUBSCRIBE" && MethodName(27) == "UNSUBSCRIBE" && MethodName(28) == "PATCH"
    ensures MethodName(29) == "PURGE" && MethodName(30) == "MKCALENDAR" && MethodName(31) == "LINK"
  {
  }

  lemma OtherNames3()
    ensures MethodName(32) == "UNLINK" && MethodName(33) == "SOURCE"
  {
  }

  /** and the rest. */
  lemma OtherNumbers(rest: string)
    requires |rest| >= 2
    ensures MethodOf("REPORT" + rest, 0) == 20 && MethodOf("MKACTIVITY" + rest, 0) == 21
    ensures MethodOf("CHECKOUT" + rest, 0) == 22 && MethodOf("MERGE" + rest, 0) == 23
    ensures MethodOf("M - SEARCH" + rest, 0) == 24 && MethodOf("NOTIFY" + rest, 0) == 25
    ensures MethodOf("SUBSCRIBE" + rest, 0) == 26 && MethodOf("UNSUBSCRIBE" + rest, 0) == 27
    ensures MethodOf("PATCH" + rest, 0) == 28 && MethodOf("PURGE" + rest, 0) == 29
    ensures MethodOf("MKCALENDAR" + rest, 0) == 30 && MethodOf("LINK" + rest, 0) == 31
    ensures MethodOf("UNLINK" + rest, 0) == 32 && MethodOf("SOURCE" + rest, 0) == 33
  {
    OtherNames1();
    OtherNames2();
    OtherNames3();
    hide MethodName;
    hide MethodOf;
    Named(20, "REPORT", rest);
    Named(21, "MKACTIVITY", rest);
    Named(22, "CHECKOUT", rest);
    Named(23, "MERGE", rest);
    Named(24, "M - SEARCH", rest);
    Named(25, "NOTIFY", rest);
    Named(26, "SUBSCRIBE", rest);
    Named(27, "UNSUBSCRIBE", rest);
    Named(28, "PATCH", rest);
    Named(29, "PURGE", rest);
    Named(30, "MKCALENDAR", rest);
    Named(31, "LINK", rest);
    Named(32, "UNLINK", rest);
    Named(33, "SOURCE", rest);
  }

  // ---------- header keys ----------

  function Lower(c: char): char
  {
    if 'A' <= c <= 'Z' then (c as int + 32) as char else c
  }

  /** What strcasecmp sees of a key: up to the first NUL, in lower case. */
  function Fold(s: string): string
  {
    if s == "" || s[0] == '\0' then "" else [Lower(s[0])] + Fold(s[1..])
  }

  predicate Before(a: string, b: string)
  {
    b != "" && (a == "" || a[0] < b[0] || (a[0] == b[0] && Before(a[1..], b[1..])))
  }

  /** CaseInsensitiveLess */
  predicate KeyLess(a: string, b: string)
  {
    Before(Fold(a), Fold(b))
  }

  predicate SameKey(a: string, b: string)
  {
    Fold(a) == Fold(b)
  }

  lemma {:induction false} BeforeIsOrder(a: string, b: string, c: string)
    ensures !Before(a, a)
    ensures Before(a, b) && Before(b, c) ==> Before(a, c)
    ensures !Before(a, b) && !Before(b, a) ==> a == b
  {
    if a != "" {
      BeforeIsOrder(a[1..], if b == "" then "" else b[1..], if c == "" then "" else c[1..]);
    }
    if a != "" && b != "" && a[0] == b[0] {
      assert a == [a[0]] + a[1..] && b == [b[0]] + b[1..];
    }
  }

  /** The comparator is a strict weak order, and keys it does not tell apart are those
      that differ in case only (or behind a NUL). */
  lemma KeyOrder(a: string, b: string, c: string)
    ensures !KeyLess(a, a)
    ensures KeyLess(a, b) && KeyLess(b, c) ==> KeyLess(a, c)
    ensures !KeyLess(a, b) && !KeyLess(b, a) <==> SameKey(a, b)
    ensures SameKey(a, b) ==> (KeyLess(a, c) <==> KeyLess(b, c)) && (KeyLess(c, a) <==> KeyLess(c, b))
  {
    BeforeIsOrder(Fold(a), Fold(b), Fold(c));
    BeforeIsOrder(Fold(b), Fold(a), Fold(c));
  }

  /** The same character, or the two cases of a letter. */
  predicate SameLetter(c: char, d: char)
  {
    c == d || ('A' <= c <= 'Z' && d as int == c as int + 32) || ('A' <= d <= 'Z' && c as int == d as int + 32)
  }

  /** Keys without a NUL are the same exactly if they agree letter by letter up to case. */
  lemma {:induction false} SameKeyMeans(a: string, b: string)
    requires '\0' !in a && '\0' !in b
    ensures SameKey(a, b) <==> |a| == |b| && forall i :: 0 <= i < |a| ==> SameLetter(a[i], b[i])
  {
    if a != "" && b != "" {
      SameKeyMeans(a[1..], b[1..]);
      assert Fold(a)[1..] == Fold(a[1..]) && Fold(b)[1..] == Fold(b[1..]);
      assert SameKey(a, b) <==> Lower(a[0]) == Lower(b[0]) && SameKey(a[1..], b[1..]);
      assert Lower(a[0]) == Lower(b[0]) <==> SameLetter(a[0], b[0]);
      if |a| == |b| && forall i :: 0 <= i < |a| - 1 ==> SameLetter(a[1..][i], b[1..][i]) {
        forall i | 1 <= i < |a| ensures SameLetter(a[i], b[i]) {
          assert SameLetter(a[1..][i - 1], b[1..][i - 1]);
        }
      }
      if |a| == |b| && forall i :: 0 <= i < |a| ==> SameLetter(a[i], b[i]) {
        forall i | 0 <= i < |a| - 1 ensures SameLetter(a[1..][i], b[1..][i]) {
        }
      }
    }
  }

  /** The code of a letter in lower case. */
  function Rank(c: char): int
  {
    c as int + if 'A' <= c <= 'Z' then 32 else 0
  }

  /** The first k letters agree, and there a ends or has the smaller letter. */
  predicate SmallerAt(a: string, b: string, k: nat)
  {
    k <= |a| && k < |b| && (forall i :: 0 <= i < k ==> SameLetter(a[i], b[i])) && (k == |a| || Rank(a[k]) < Rank(b[k]))
  }

  /** And one comes before another if it is smaller at the first place where they differ. */
  lemma {:induction false} KeyLessMeans(a: string, b: string)
    requires '\0' !in a && '\0' !in b
    ensures KeyLess(a, b) <==> exists k: nat :: SmallerAt(a, b, k)
  {
    if a != "" && b != "" && SameLetter(a[0], b[0]) {
      KeyLessMeans(a[1..], b[1..]);
      assert Fold(a)[1..] == Fold(a[1..]) && Fold(b)[1..] == Fold(b[1..]);
      assert KeyLess(a, b) <==> KeyLess(a[1..], b[1..]);
      hide KeyLess;
      SmallerLater(a, b);
    } else if b != "" {
      assert KeyLess(a, b) <==> SmallerAt(a, b, 0);
      hide KeyLess;
      assert forall k: nat :: k > 0 ==> !SmallerAt(a, b, k);
    }
  }

  lemma SmallerLater(a: string, b: string)
    requires a != "" && b != "" && SameLetter(a[0], b[0])
    ensures (exists k: nat :: SmallerAt(a, b, k)) <==> exists k: nat :: SmallerAt(a[1..], b[1..], k)
  {
    if k: nat :| SmallerAt(a, b, k) {
      assert k > 0;
      assert SmallerAt(a[1..], b[1..], k - 1);
    }
    if k: nat :| SmallerAt(a[1..], b[1..], k) {
      forall i | 1 <= i < k + 1 ensures SameLetter(a[i], b[i]) {
        assert SameLetter(a[1..][i - 1], b[1..][i - 1]);
      }
      assert SmallerAt(a, b, k + 1);
    }
  }

  // ---------- the header map ----------

  datatype Header = Header(key: string, value: string)

  predicate Ordered(h: seq<Header>)
  {
    forall i, j {:trigger h[i], h[j]} :: 0 <= i < j < |h| ==> KeyLess(h[i].key, h[j].key)
  }

  /** m[key] = value: a key already there keeps its spelling. */
  function Put(h: seq<Header>, key: string, value: string): (r: seq<Header>)
  {
    if h == [] then [Header(key, value)]
    else if KeyLess(h[0].key, key) then [h[0]] + Put(h[1..], key, value)
    else if KeyLess(key, h[0].key) then [Header(key, value)] + h
    else [Header(h[0].key, value)] + h[1..]
  }

  function Get(h: seq<Header>, key: string): Option<string>
  {
    if h == [] then None
    else if SameKey(h[0].key, key) then Some(h[0].value)
    else Get(h[1..], key)
  }

  lemma {:induction false} PutKeys(h: seq<Header>, key: string, value: string, low: string)
    requires KeyLess(low, key) && forall x <- h :: KeyLess(low, x.key)
    ensures forall x <- Put(h, key, value) :: KeyLess(low, x.key)
  {
    if h != [] {
      PutKeys(h[1..], key, value, low);
    }
  }

  lemma {:induction false} PutOrdered(h: seq<Header>, key: string, value: string)
    requires Ordered(h)
    ensures Ordered(Put(h, key, value))
  {
    if h != [] {
      var r := Put(h, key, value);
      KeyOrder(h[0].key, key, key);
      if KeyLess(h[0].key, key) {
        PutOrdered(h[1..], key, value);
        PutKeys(h[1..], key, value, h[0].key);
        assert forall j :: 0 < j < |r| ==> r[j] in r[1..];
      } else if KeyLess(key, h[0].key) {
        forall j | 0 < j < |r| ensures KeyLess(key, r[j].key) {
          KeyOrder(key, h[0].key, r[j].key);
        }
      } else {
        forall j | 0 < j < |r| ensures KeyLess(r[0].key, r[j].key) {
          assert r[j] == h[j];
        }
      }
    }
  }

  /** An ordered list has no key twice. */
  lemma {:induction false} GetNone(h: seq<Header>, key: string)
    requires forall x <- h :: !SameKey(x.key, key)
    ensures Get(h, key) == None
  {
    if h != [] {
      GetNone(h[1..], key);
    }
  }

  /** The map behaves as a map up to case. */
  lemma {:induction false} GetPut(h: seq<Header>, key: string, value: string, k: string)
    requires Ordered(h)
    ensures Get(Put(h, key, value), k) == if SameKey(key, k) then Some(value) else Get(h, k)
  {
    if h != [] {
      KeyOrder(h[0].key, key, k);
      KeyOrder(key, h[0].key, k);
      if KeyLess(h[0].key, key) {
        GetPut(h[1..], key, value, k);
      }
    }
  }

  // ---------- decimal numbers ----------

  function Digit(d: int): char
    requires 0 <= d < 10
  {
    ('0' as int + d) as char
  }

  predicate IsDigit(c: char)
  {
    '0' <= c <= '9'
  }

  function Decimal(n: nat): (s: string)
    ensures |s| > 0 && forall c <- s :: IsDigit(c)
  {
    if n < 10 then [Digit(n)] else Decimal(n / 10) + [Digit(n % 10)]
  }

  /** lexical_cast<uint64_t> of plain digits; it fails on the empty string and on overflow. */
  function Digits(s: string): nat
    requires forall c <- s :: IsDigit(c)
  {
    if s == "" then 0
    else
      assert IsDigit(s[|s| - 1]);
      10 * Digits(s[..|s| - 1]) + (s[|s| - 1] as int - '0' as int)
  }

  datatype Cast = Number(n: nat) | Failed | Unmodelled

  function LexicalCast(s: string): Cast
  {
    if s == "" then Failed
    else if forall c <- s :: IsDigit(c) then
      if Digits(s) < Pow(2, 64) then Number(Digits(s)) else Failed
    else Unmodelled     // signs, blanks and the like
  }

  lemma {:induction false} DigitsDecimal(n: nat)
    ensures Digits(Decimal(n)) == n
  {
    if n >= 10 {
      var s := Decimal(n);
      assert s[..|s| - 1] == Decimal(n / 10);
      DigitsDecimal(n / 10);
    } else {
      assert Decimal(n)[..0] == "";
    }
  }

  lemma CastDecimal(n: nat)
    requires n < Pow(2, 64)
    ensures LexicalCast(Decimal(n)) == Number(n)
  {
    DigitsDecimal(n);
  }

  /** getContentLength: getAs with the default 0. */
  function ContentLength(h: seq<Header>): Cast
  {
    var v := Get(h, "content-length");
    if v.None? then Number(0)
    else
      var c := LexicalCast(v.value);
      if c.Failed? then Number(0) else c
  }

  // ---------- printing ----------

  datatype Request = Request(verb: nat, version: nat, close: bool, path: string, query: string, fragment: string,
                             body: string, headers: seq<Header>)

  const CRLF := "\r\n"

  function CloseText(close: bool): string
  {
    if close then "close" else "keep-alive"
  }

  function Line(h: Header): string
  {
    h.key + ":" + h.value + CRLF
  }

  /** The header lines but those for `connection`. */
  function Lines(h: seq<Header>): string
  {
    if h == [] then ""
    else (if SameKey(h[0].key, "connection") then "" else Line(h[0])) + Lines(h[1..])
  }

  function Target(r: Request): string
  {
    r.path + (if r.query == "" then "" else "?" + r.query) + (if r.fragment == "" then "" else "#" + r.fragment)
  }

  function VersionText(version: nat): string
  {
    " HTTP/" + Decimal(version / 16) + "." + Decimal(version % 16) + CRLF
  }

  function Ending(body: string): string
  {
    if body != "" then "content-length: " + Decimal(|body|) + CRLF + CRLF + body else CRLF
  }

  /** HttpRequest::dump */
  function Dump(r: Request): string
  {
    MethodName(r.verb) + " " + Target(r) + VersionText(r.version) +
    "connection: " + CloseText(r.close) + CRLF + Lines(r.headers) + Ending(r.body)
  }

  // ---------- what parsing should find ----------

  function PutAll(to: seq<Header>, h: seq<Header>): seq<Header>
    decreases |h|
  {
    if h == [] then to
    else PutAll(if SameKey(h[0].key, "connection") then to else Put(to, h[0].key, h[0].value), h[1..])
  }

  function Found(r: Request): seq<Header>
  {
    var h := PutAll(Put([], "connection", CloseText(r.close)), r.headers);
    if r.body != "" then Put(h, "content-length", Decimal(|r.body|)) else h
  }

  lemma {:induction false} PutAllOrdered(to: seq<Header>, h: seq<Header>)
    requires Ordered(to)
    ensures Ordered(PutAll(to, h))
    decreases |h|
  {
    if h != [] {
      PutOrdered(to, h[0].key, h[0].value);
      PutAllOrdered(if SameKey(h[0].key, "connection") then to else Put(to, h[0].key, h[0].value), h[1..]);
    }
  }

  lemma {:induction false} GetPutAll(to: seq<Header>, h: seq<Header>, k: string)
    requires Ordered(to) && Ordered(h)
    ensures Get(PutAll(to, h), k) ==
            if SameKey(k, "connection") || Get(h, k).None? then Get(to, k) else Get(h, k)
    decreases |h|
  {
    if h != [] {
      var next := if SameKey(h[0].key, "connection") then to else Put(to, h[0].key, h[0].value);
      PutOrdered(to, h[0].key, h[0].value);
      GetPut(to, h[0].key, h[0].value, k);
      GetPutAll(next, h[1..], k);
      if SameKey(h[0].key, k) {
        forall x | x in h[1..] ensures !SameKey(x.key, k) {
          var j :| 0 < j < |h| && h[j] == x;
          assert KeyLess(h[0].key, h[j].key);
          KeyOrder(h[0].key, x.key, k);
        }
        GetNone(h[1..], k);
      }
    }
  }

  /** The headers found: those of the request, with the printed connection and, for a
      body, the printed content-length in the place of its own. */
  lemma FoundHeaders(r: Request, k: string)
    requires Ordered(r.headers)
    ensures Ordered(Found(r))
    ensures Get(Found(r), k) ==
            if r.body != "" && SameKey(k, "content-length") then Some(Decimal(|r.body|))
            else if SameKey(k, "connection") then Some(if r.close then "close" else "keep-alive")
            else Get(r.headers, k)
  {
    var one := Put([], "connection", CloseText(r.close));
    GetPut([], "connection", CloseText(r.close), k);
    PutAllOrdered(one, r.headers);
    GetPutAll(one, r.headers, k);
    PutOrdered(PutAll(one, r.headers), "content-length", Decimal(|r.body|));
    GetPut(PutAll(one, r.headers), "content-length", Decimal(|r.body|), k);
  }

  /** And so the length found is that of the body, or, without one, what the request's own
      headers say. */
  lemma FoundLength(r: Request)
    requires Ordered(r.headers) && |r.body| < Pow(2, 64)
    ensures ContentLength(Found(r)) == if r.body != "" then Number(|r.body|) else ContentLength(r.headers)
    ensures r.body == "" && Get(r.headers, "content-length").None? ==> ContentLength(Found(r)) == Number(0)
  {
    FoundHeaders(r, "content-length");
    KeysDiffer();
    CastDecimal(|r.body|);
  }

  lemma {:induction false} GetAt(h: seq<Header>, i: nat, k: string)
    requires Ordered(h) && i < |h| && SameKey(h[i].key, k)
    ensures Get(h, k) == Some(h[i].value)
  {
    if i > 0 {
      assert KeyLess(h[0].key, h[i].key);
      KeyOrder(h[0].key, h[i].key, k);
      KeyOrder(h[i].key, k, k);
      GetAt(h[1..], i - 1, k);
    }
  }

  /** Whatever the spelling of content-length, its number is the length. */
  lemma LengthUnderAnySpelling(h: seq<Header>, i: nat, n: nat)
    requires Ordered(h) && i < |h| && n < Pow(2, 64) && h[i].value == Decimal(n)
    requires |h[i].key| == |"content-length"| && forall j :: 0 <= j < |h[i].key| ==> SameLetter(h[i].key[j], "content-length"[j])
    ensures ContentLength(h) == Number(n)
  {
    SameKeyMeans(h[i].key, "content-length");
    GetAt(h, i, "content-length");
    CastDecimal(n);
  }

  lemma KeysDiffer()
    ensures !SameKey("content-length", "connection")
  {
    assert |Fold("connection")| == 10 by { FoldPlain("connection"); }
    assert |Fold("content-length")| == 14 by { FoldPlain("content-length"); }
  }

  lemma {:induction false} FoldPlain(s: string)
    requires '\0' !in s
    ensures |Fold(s)| == |s|
  {
    if s != "" {
      FoldPlain(s[1..]);
    }
  }
}

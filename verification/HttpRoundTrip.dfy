/** Printing a request and parsing what was printed, and parsing, printing and parsing again. */
module HttpRoundTrip {
  import opened Codec
  import opened HttpSpec
  import opened HttpMachine
  import opened HttpRuns
  import opened HttpGrammar
  import opened HttpLanguage

  // ---------- well-formed requests ----------

  predicate GoodTarget(r: Request, relaxed: bool)
  {
    GoodPath(r.path, relaxed) && Escaped(r.query, false, relaxed) && Escaped(r.fragment, false, relaxed)
  }

  predicate WellFormed(r: Request, relaxed: bool)
  {
    r.verb < METHOD_COUNT && r.verb != MSEARCH && (r.version == 0x10 || r.version == 0x11) && GoodTarget(r, relaxed) &&
    Ordered(r.headers) && (forall h <- r.headers :: GoodKey(h.key) && GoodValue(h.value))
  }

  // ---------- what is printed is a head of the grammar ----------

  /** The header lines that are printed of a map: without its connection. */
  function LineFields(h: seq<Header>): seq<Field>
  {
    if h == [] then []
    else (if SameKey(h[0].key, "connection") then [] else [Field(h[0].key, "", h[0].value, CRLF)]) + LineFields(h[1..])
  }

  function EndFields(body: string): seq<Field>
  {
    if body == "" then [] else [Field("content-length", " ", Decimal(|body|), CRLF)]
  }

  function AllFields(r: Request): seq<Field>
  {
    [Field("connection", " ", CloseText(r.close), CRLF)] + LineFields(r.headers) + EndFields(r.body)
  }

  function VersionName(version: nat): string
  {
    if version == 0x11 then "HTTP/1.1" else "HTTP/1.0"
  }

  lemma VersionTexts(version: nat)
    requires version == 0x10 || version == 0x11
    ensures VersionText(version) == " " + (VersionName(version) + CRLF)
  {
    assert Decimal(1) == "1" && Decimal(0) == "0";
    assert version / 16 == 1 && version % 16 == if version == 0x11 then 1 else 0;
    assert " HTTP/" + "1" + "." + "1" + CRLF == " " + ("HTTP/1.1" + CRLF);
    assert " HTTP/" + "1" + "." + "0" + CRLF == " " + ("HTTP/1.0" + CRLF);
  }

  lemma NameChars(verb: nat)
    requires verb < METHOD_COUNT && verb != MSEARCH
    ensures 3 <= |MethodName(verb)| <= 11 && forall i :: 0 <= i < |MethodName(verb)| ==> MethodChar(Ord(MethodName(verb)[i]))
  {
  }

  lemma DecimalIsValue(n: nat)
    ensures GoodValue(Decimal(n))
  {
    var s := Decimal(n);
    forall i | 0 <= i < |s| ensures ValueChar(Ord(s[i])) && s[i] != ' ' && s[i] != '\t' {
      assert IsDigit(s[i]);
    }
  }

  lemma PrintedKeys()
    ensures GoodKey("connection") && GoodKey("content-length")
    ensures GoodValue("close") && GoodValue("keep-alive")
  {
  }

  /** The head of the text that dump prints. */
  function HeadOf(r: Request): Head
  {
    Head(MethodName(r.verb), r.path, if r.query == "" then "" else "?", r.query, if r.fragment == "" then "" else "#", r.fragment,
         VersionName(r.version), CRLF, AllFields(r), CRLF)
  }

  lemma {:induction false} FieldsTogether(a: seq<Field>, b: seq<Field>)
    ensures FieldsText(a + b) == FieldsText(a) + FieldsText(b)
    ensures forall to :: PutFields(to, a + b) == PutFields(PutFields(to, a), b)
  {
    if a == [] {
      assert a + b == b;
    } else {
      assert (a + b)[1..] == a[1..] + b;
      FieldsTogether(a[1..], b);
    }
  }

  lemma OneField(f: Field, to: seq<Header>)
    ensures FieldsText([f]) == FieldText(f) && PutFields(to, [f]) == Put(to, f.key, f.value)
  {
    assert [f][1..] == [];
  }

  lemma {:induction false} LinesAreFields(h: seq<Header>, to: seq<Header>)
    requires forall x <- h :: GoodKey(x.key) && GoodValue(x.value)
    ensures FieldsText(LineFields(h)) == Lines(h) && PutFields(to, LineFields(h)) == PutAll(to, h)
    ensures forall f <- LineFields(h) :: GoodField(f)
    decreases |h|
  {
    hide GoodKey;
    hide GoodValue;
    hide SameKey;
    if h != [] {
      var one := if SameKey(h[0].key, "connection") then [] else [Field(h[0].key, "", h[0].value, CRLF)];
      FieldsTogether(one, LineFields(h[1..]));
      if one == [] {
        LinesAreFields(h[1..], to);
      } else {
        OneField(one[0], to);
        GoodLine(h[0]);
        LinesAreFields(h[1..], Put(to, h[0].key, h[0].value));
      }
    }
  }

  lemma GoodLine(h: Header)
    requires GoodKey(h.key) && GoodValue(h.value)
    ensures GoodField(Field(h.key, "", h.value, CRLF)) && FieldText(Field(h.key, "", h.value, CRLF)) == Line(h)
  {
  }

  lemma EndIsFields(body: string, to: seq<Header>)
    ensures FieldsText(EndFields(body)) + CRLF + body == Ending(body)
    ensures PutFields(to, EndFields(body)) == if body != "" then Put(to, "content-length", Decimal(|body|)) else to
    ensures forall f <- EndFields(body) :: GoodField(f)
  {
    if body != "" {
      hide Decimal;
      var f := Field("content-length", " ", Decimal(|body|), CRLF);
      OneField(f, to);
      DecimalIsValue(|body|);
      PrintedKeys();
      assert "content-length" + ":" + " " == "content-length: ";
    }
  }

  lemma FirstIsField(close: bool)
    ensures var f := Field("connection", " ", CloseText(close), CRLF);
            GoodField(f) && FieldText(f) == "connection: " + CloseText(close) + CRLF
  {
    PrintedKeys();
    assert "connection" + ":" + " " == "connection: ";
  }

  lemma AllAreFields(r: Request)
    requires forall x <- r.headers :: GoodKey(x.key) && GoodValue(x.value)
    ensures FieldsText(AllFields(r)) + CRLF + r.body ==
            "connection: " + CloseText(r.close) + CRLF + Lines(r.headers) + Ending(r.body)
    ensures PutFields([], AllFields(r)) == Found(r) && forall f <- AllFields(r) :: GoodField(f)
  {
    hide GoodKey;
    hide GoodValue;
    hide GoodField;
    hide FieldText;
    hide Put;
    hide Ending;
    hide Lines;
    hide CloseText;
    var first := Field("connection", " ", CloseText(r.close), CRLF);
    var h1 := Put([], "connection", CloseText(r.close));
    var h2 := PutAll(h1, r.headers);
    FirstIsField(r.close);
    OneField(first, []);
    LinesAreFields(r.headers, h1);
    EndIsFields(r.body, h2);
    hide LineFields;
    hide EndFields;
    FieldsTogether([first], LineFields(r.headers));
    FieldsTogether([first] + LineFields(r.headers), EndFields(r.body));
    hide FieldsText;
    hide PutFields;
    Regroup(FieldText(first) + Lines(r.headers), FieldsText(EndFields(r.body)), CRLF, r.body, "", "");
    NoMore(FieldsText(AllFields(r)) + CRLF + r.body, FieldsText(EndFields(r.body)) + CRLF + r.body, "");
  }

  /** What is printed is the head, and the body behind it. */
  lemma DumpIsHead(r: Request, relaxed: bool)
    requires WellFormed(r, relaxed)
    ensures GoodHead(HeadOf(r), relaxed) && Dump(r) == HeadText(HeadOf(r)) + r.body
    ensures MethodOf(Dump(r), 0) == r.verb && PutFields([], HeadOf(r).fields) == Found(r)
  {
    HeadIsGood(r, relaxed);
    hide *;
    AllFieldsOf(r, relaxed);
    DumpText(r);
    HeadFields(r);
    var name := MethodName(r.verb);
    assert name + Dump(r)[|name|..] == Dump(r);
    VerbOf(r, relaxed, Dump(r)[|name|..]);
  }

  lemma HeadFields(r: Request)
    ensures HeadOf(r).fields == AllFields(r)
  {
  }

  lemma AllFieldsOf(r: Request, relaxed: bool)
    requires WellFormed(r, relaxed)
    ensures r.version == 0x10 || r.version == 0x11
    ensures FieldsText(AllFields(r)) + CRLF + r.body ==
            "connection: " + CloseText(r.close) + CRLF + Lines(r.headers) + Ending(r.body)
    ensures PutFields([], AllFields(r)) == Found(r) && forall f <- AllFields(r) :: GoodField(f)
  {
    AllAreFields(r);
  }

  lemma VerbOf(r: Request, relaxed: bool, rest: string)
    requires WellFormed(r, relaxed) && |rest| >= 2
    ensures MethodOf(MethodName(r.verb) + rest, 0) == r.verb
  {
    MethodReadBack(r.verb, rest);
  }

  lemma HeadIsGood(r: Request, relaxed: bool)
    requires WellFormed(r, relaxed)
    ensures GoodHead(HeadOf(r), relaxed)
  {
    hide MethodName;
    hide VerbText;
    hide GoodParts;
    hide GoodField;
    hide AllFields;
    NameIsVerb(r.verb);
    GoodTargetParts(r, relaxed);
    AllFieldsOf(r, relaxed);
  }

  lemma NameIsVerb(verb: nat)
    requires verb < METHOD_COUNT && verb != MSEARCH
    ensures VerbText(MethodName(verb))
  {
    NameChars(verb);
    hide MethodName;
    hide MethodChar;
    forall c | c in MethodName(verb) ensures MethodChar(Ord(c)) {
      var i :| 0 <= i < |MethodName(verb)| && MethodName(verb)[i] == c;
    }
  }

  lemma TargetIs(r: Request)
    ensures Target(r) == TargetText(HeadOf(r))
  {
  }

  lemma DumpText(r: Request)
    requires r.version == 0x10 || r.version == 0x11
    requires FieldsText(AllFields(r)) + CRLF + r.body ==
             "connection: " + CloseText(r.close) + CRLF + Lines(r.headers) + Ending(r.body)
    ensures Dump(r) == HeadText(HeadOf(r)) + r.body && MethodName(r.verb) <= Dump(r) && |Dump(r)| >= |MethodName(r.verb)| + 2
  {
    hide Target;
    hide TargetText;
    hide VersionText;
    hide CloseText;
    hide Lines;
    hide Ending;
    hide FieldsText;
    hide AllFields;
    hide MethodName;
    TargetIs(r);
    VersionTexts(r.version);
    var front := MethodName(r.verb) + " " + Target(r);
    var begin := front + VersionText(r.version);
    Regroup(begin, "connection: ", CloseText(r.close), CRLF, Lines(r.headers), Ending(r.body));
    Regroup(front, " ", VersionName(r.version), CRLF, "", "");
    Regroup(begin, FieldsText(AllFields(r)), CRLF, r.body, "", "");
    NoMore(VersionName(r.version) + CRLF, " ", FieldsText(AllFields(r)) + CRLF + r.body);
    NoMore(front + " " + VersionName(r.version) + CRLF, " ", begin + FieldsText(AllFields(r)) + CRLF + r.body);
    Regroup(" ", VersionName(r.version), CRLF, "", "", "");
    assert |Dump(r)| >= |begin| + 12;
    assert MethodName(r.verb) <= front && front <= begin && begin <= Dump(r);
  }

  lemma Regroup(x: string, a: string, b: string, c: string, d: string, e: string)
    ensures x + a + b + c + d + e == x + (a + b + c + d + e)
  {
  }

  lemma NoMore(a: string, b: string, c: string)
    ensures a + "" == a && b + "" == b && c + "" == c
  {
  }

  // ---------- there and back ----------

  /** Parsing what a well-formed request prints finishes, behind the header: it recovers
      method, path, query, fragment, version and headers, with the printed connection and
      content-length among them, and leaves exactly the body. */
  lemma RoundTrip(r: Request, relaxed: bool)
    requires WellFormed(r, relaxed)
    ensures var s := Run(NewMachine(), Dump(r), 0, relaxed);
            s.m.cs == FINAL && s.m.error == 0 && !s.outside &&
            Dump(r)[s.p..] == r.body && s.m.bodyStart == s.p &&
            s.m.req.verb == r.verb && s.m.req.path == r.path && s.m.req.query == r.query && s.m.req.fragment == r.fragment &&
            s.m.req.version == r.version && s.m.req.headers == Found(r)
  {
    hide Run;
    hide GoodPath;
    hide Escaped;
    hide GoodHead;
    hide HeadText;
    hide MethodName;
    hide MethodOf;
    hide Dump;
    hide PutFields;
    hide AllFields;
    hide Found;
    DumpIsHead(r, relaxed);
    GrammarAccepted(HeadOf(r), r.body, relaxed);
  }

  // ---------- what does not come back ----------

  /** M-SEARCH is printed as "M - SEARCH": the parser reads the method, takes "-" for the
      target, and fails at the S. */
  lemma MSearchFails(r: Request, relaxed: bool)
    requires r.verb == MSEARCH
    ensures Run(NewMachine(), Dump(r), 0, relaxed).m.cs == 0
  {
    MSearchText(r);
    MSearchRun(NewMachine(), Dump(r), relaxed);
  }

  lemma MSearchRun(m: Machine, buf: string, relaxed: bool)
    requires m.cs == START && |buf| > 4 && buf[0] == 'M' && buf[1] == ' ' && buf[2] == '-' && buf[3] == ' ' && buf[4] == 'S'
    ensures Run(m, buf, 0, relaxed).m.cs == 0
  {
    hide Run;
    hide ActAll;
    One(m, buf, 0, relaxed, 'M', [MarkHere], 2);
    var m1 := ActAll(m, [MarkHere], buf, 0).(cs := 2);
    One(m1, buf, 1, relaxed, ' ', [OnMethod], 3);
    var m2 := ActAll(m1, [OnMethod], buf, 1).(cs := 3);
    One(m2, buf, 2, relaxed, '-', [MarkHere], 19);
    var m3 := ActAll(m2, [MarkHere], buf, 2).(cs := 19);
    One(m3, buf, 3, relaxed, ' ', [OnPath, OnUri], 4);
    FailsHere(ActAll(m3, [OnPath, OnUri], buf, 3).(cs := 4), buf, 4, relaxed);
  }

  lemma MSearchText(r: Request)
    requires r.verb == MSEARCH
    ensures var buf := Dump(r);
            |buf| > 4 && buf[0] == 'M' && buf[1] == ' ' && buf[2] == '-' && buf[3] == ' ' && buf[4] == 'S'
  {
    hide Target;
    hide VersionText;
    hide CloseText;
    hide Lines;
    hide Ending;
    var name := MethodName(r.verb);
    assert name == "M - SEARCH";
    assert Dump(r)[..10] == name;
    assert forall i :: 0 <= i < 10 ==> Dump(r)[i] == Dump(r)[..10][i];
  }

  /** A version other than 1.0 and 1.1 fails too: each half is one digit, 1 and 0 or 1. */
  lemma BadVersion(m: Machine, buf: string, p: nat, text: string, version: nat, relaxed: bool)
    requires m.cs == 4 && version < 256 && version != 0x10 && version != 0x11
    requires text == "HTTP/" + Decimal(version / 16) + "." + Decimal(version % 16) + CRLF && At(buf, p, text)
    ensures Run(m, buf, p, relaxed).m.cs == 0
  {
    hide Run;
    forall i | 0 <= i < |text| ensures buf[p + i] == text[i] {
      assert buf[p..p + |text|][i] == text[i];
    }
    VersionDigits(version, text);
    Five(m, buf, p, relaxed);
    hide Trans;
    Numbers(m.(cs := 9, mark := p), buf, p + 5, text, p, version, relaxed);
  }

  lemma Numbers(m: Machine, buf: string, q: nat, text: string, p: nat, version: nat, relaxed: bool)
    requires m.cs == 9 && q == p + 5 && |text| >= 10 && p + |text| <= |buf|
    requires forall i :: 0 <= i < |text| ==> buf[p + i] == text[i]
    requires text[5] != '1' || text[6] != '.' || (text[7] != '0' && text[7] != '1') || (text[8] != '\r' && text[8] != '\n')
    ensures Run(m, buf, q, relaxed).m.cs == 0
  {
    hide Run;
    assert buf[p + 5] == text[5] && buf[p + 6] == text[6] && buf[p + 7] == text[7] && buf[p + 8] == text[8];
    if text[5] != '1' {
      FailsHere(m, buf, q, relaxed);
    } else {
      Plain(m, buf, q, '1', relaxed);
      if text[6] != '.' {
        FailsHere(m.(cs := 10), buf, q + 1, relaxed);
      } else {
        Plain(m.(cs := 10), buf, q + 1, '.', relaxed);
        if text[7] != '0' && text[7] != '1' {
          FailsHere(m.(cs := 11), buf, q + 2, relaxed);
        } else {
          Plain(m.(cs := 11), buf, q + 2, text[7], relaxed);
          FailsHere(m.(cs := 12), buf, q + 3, relaxed);
        }
      }
    }
  }

  lemma VersionDigits(version: nat, text: string)
    requires version < 256 && version != 0x10 && version != 0x11
    requires text == "HTTP/" + Decimal(version / 16) + "." + Decimal(version % 16) + CRLF
    ensures |text| >= 10 && text[..5] == "HTTP/"
    ensures text[5] != '1' || text[6] != '.' || (text[7] != '0' && text[7] != '1') || (text[8] != '\r' && text[8] != '\n')
  {
    var a, b := version / 16, version % 16;
    TwoDigits(a);
    TwoDigits(b);
  }

  lemma TwoDigits(n: nat)
    requires n < 16
    ensures Decimal(n) == if n < 10 then [Digit(n)] else ['1', Digit(n - 10)]
  {
    if n >= 10 {
      assert n / 10 == 1 && n % 10 == n - 10;
    }
  }

  lemma BadVersionFails(r: Request, relaxed: bool)
    requires r.verb < METHOD_COUNT && r.verb != MSEARCH && r.version < 256 && r.version != 0x10 && r.version != 0x11
    requires GoodTarget(r, relaxed)
    ensures Run(NewMachine(), Dump(r), 0, relaxed).m.cs == 0
  {
    hide *;
    var text := "HTTP/" + Decimal(r.version / 16) + "." + Decimal(r.version % 16) + CRLF;
    var name, buf := MethodName(r.verb), Dump(r);
    DumpPieces(r, text, "connection: " + CloseText(r.close) + CRLF + Lines(r.headers) + Ending(r.body));
    NameIsVerb(r.verb);
    TargetIs(r);
    GoodTargetParts(r, relaxed);
    var e := |name| + 1 + |Target(r)|;
    VerbRead(buf, |name|, relaxed);
    var n := TargetRun(BegunWith(buf), buf, |name| + 1, e, HeadOf(r), relaxed);
    BadVersion(n, buf, e + 1, text, r.version, relaxed);
  }

  lemma GoodTargetParts(r: Request, relaxed: bool)
    requires GoodTarget(r, relaxed)
    ensures GoodParts(HeadOf(r), relaxed)
  {
  }

  lemma DumpPieces(r: Request, text: string, rest: string)
    requires text == "HTTP/" + Decimal(r.version / 16) + "." + Decimal(r.version % 16) + CRLF
    requires rest == "connection: " + CloseText(r.close) + CRLF + Lines(r.headers) + Ending(r.body)
    ensures var buf, q := Dump(r), |MethodName(r.verb)|;
            var e := q + 1 + |Target(r)|;
            e < |buf| && buf[..q] == MethodName(r.verb) && buf[q] == ' ' && At(buf, q + 1, Target(r)) && buf[e] == ' ' && At(buf, e + 1, text)
  {
    hide MethodName;
    hide Target;
    hide Decimal;
    hide CloseText;
    hide Lines;
    hide Ending;
    var name := MethodName(r.verb);
    var front := name + " " + Target(r);
    assert VersionText(r.version) == " " + text;
    Regroup(front + VersionText(r.version), "connection: ", CloseText(r.close), CRLF, Lines(r.headers), Ending(r.body));
    assert Dump(r) == front + " " + text + rest;
    NoMore(Dump(r), "", "");
    Pieces(Dump(r), name, Target(r), text, rest, "", "");
  }

  /** For the rest well-formed, a request comes back exactly when its method is not
      M-SEARCH and its version is 1.0 or 1.1. */
  lemma RoundTripIff(r: Request, relaxed: bool)
    requires r.verb < METHOD_COUNT && r.version < 256 && GoodTarget(r, relaxed)
    requires Ordered(r.headers) && forall h <- r.headers :: GoodKey(h.key) && GoodValue(h.value)
    ensures Run(NewMachine(), Dump(r), 0, relaxed).m.cs == FINAL <==>
            r.verb != MSEARCH && (r.version == 0x10 || r.version == 0x11)
  {
    hide Run;
    hide Dump;
    if r.verb == MSEARCH {
      MSearchFails(r, relaxed);
    } else if r.version != 0x10 && r.version != 0x11 {
      BadVersionFails(r, relaxed);
    } else {
      RoundTrip(r, relaxed);
    }
  }

  // ---------- parsing, printing and parsing ----------

  /** A header map made of fields holds their keys and values only. */
  lemma {:induction false} PutFieldsHolds(to: seq<Header>, fields: seq<Field>)
    requires Ordered(to) && (forall f <- fields :: GoodField(f)) && forall x <- to :: KeyText(x.key) && GoodValue(x.value)
    ensures Ordered(PutFields(to, fields)) && forall x <- PutFields(to, fields) :: KeyText(x.key) && GoodValue(x.value)
    decreases |fields|
  {
    if fields != [] {
      assert GoodField(fields[0]) && KeyText(fields[0].key) && GoodValue(fields[0].value);
      hide GoodField;
      hide KeyText;
      hide GoodValue;
      hide Put;
      hide Ordered;
      PutOrdered(to, fields[0].key, fields[0].value);
      PutHolds(to, fields[0].key, fields[0].value);
      PutFieldsHolds(Put(to, fields[0].key, fields[0].value), fields[1..]);
    }
  }

  lemma {:induction false} PutHolds(to: seq<Header>, key: string, value: string)
    requires KeyText(key) && GoodValue(value) && forall x <- to :: KeyText(x.key) && GoodValue(x.value)
    ensures forall x <- Put(to, key, value) :: KeyText(x.key) && GoodValue(x.value)
  {
    hide KeyText;
    hide GoodValue;
    hide KeyLess;
    if to != [] {
      PutHolds(to[1..], key, value);
    }
  }

  lemma AbsolutePath(s: string, relaxed: bool)
    requires PathText(s, relaxed) && s != "" && s[0] == '/'
    ensures GoodPath(s, relaxed)
  {
  }

  /** "M - SEARCH" is never what an accepted request begins with. */
  lemma NotMSearch(buf: string, relaxed: bool)
    requires Run(NewMachine(), buf, 0, relaxed).m.cs == FINAL
    ensures MethodOf(buf, 0) != MSEARCH
  {
    hide Run;
    hide MethodName;
    if MethodOf(buf, 0) == MSEARCH {
      hide MethodOf;
      BeginsMSearch(buf);
      MSearchRun(NewMachine(), buf, relaxed);
    }
  }

  lemma BeginsMSearch(buf: string)
    requires MethodName(MSEARCH) <= buf
    ensures |buf| > 4 && buf[0] == 'M' && buf[1] == ' ' && buf[2] == '-' && buf[3] == ' ' && buf[4] == 'S'
  {
    assert MethodName(MSEARCH) == "M - SEARCH";
    assert forall i :: 0 <= i < 10 ==> buf[i] == "M - SEARCH"[i];
  }

  /** Whatever text the parser accepts without error: if the path begins with a slash and no
      header key with CR, the request it fills is well-formed, so that printing it and
      parsing what was printed gives the same request again, the printed headers added. */
  lemma Reprinted(buf: string, relaxed: bool)
    requires var m := Run(NewMachine(), buf, 0, relaxed).m;
             m.cs == FINAL && m.error == 0 && m.req.path != "" && m.req.path[0] == '/' &&
             forall x <- m.req.headers :: x.key != "" ==> x.key[0] != '\r'
    ensures var r := Run(NewMachine(), buf, 0, relaxed).m.req;
            WellFormed(r, relaxed) &&
            var s := Run(NewMachine(), Dump(r), 0, relaxed);
            s.m.cs == FINAL && s.m.error == 0 && !s.outside && s.p == |Dump(r)| &&
            s.m.req.verb == r.verb && s.m.req.path == r.path && s.m.req.query == r.query && s.m.req.fragment == r.fragment &&
            s.m.req.version == r.version && s.m.req.headers == Found(r)
  {
    hide Run;
    hide Dump;
    hide Found;
    var r := Run(NewMachine(), buf, 0, relaxed).m.req;
    AcceptedWell(buf, r, relaxed);
    RoundTrip(r, relaxed);
  }

  lemma AcceptedWell(buf: string, r: Request, relaxed: bool)
    requires var m := Run(NewMachine(), buf, 0, relaxed).m; m.cs == FINAL && m.error == 0 && m.req == r
    requires r.path != "" && r.path[0] == '/' && forall x <- r.headers :: x.key != "" ==> x.key[0] != '\r'
    ensures WellFormed(r, relaxed) && r.body == ""
  {
    hide Run;
    hide MethodOf;
    hide PathText;
    hide GoodPath;
    hide Escaped;
    hide HeadText;
    hide Ordered;
    hide GoodValue;
    hide FieldFirst;
    hide FieldRest;
    var h := Accepted(buf, relaxed);
    KeptFields(h.fields);
    AbsolutePath(h.path, relaxed);
    NotMSearch(buf, relaxed);
    assert r.verb < METHOD_COUNT;
  }

  lemma KeptFields(fields: seq<Field>)
    requires forall f <- fields :: GoodField(f)
    ensures Ordered(PutFields([], fields)) && forall x <- PutFields([], fields) :: KeyText(x.key) && GoodValue(x.value)
  {
    PutFieldsHolds([], fields);
  }
}

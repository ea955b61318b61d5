/** Every request of the grammar is accepted: with the converse in HttpGrammar.dfy, the
    grammar is exactly what the parser accepts inside the states modelled here. */
module HttpLanguage {
  import opened Codec
  import opened HttpSpec
  import opened HttpMachine
  import opened HttpRuns
  import opened HttpGrammar

  /** A state that takes a character as another does, once it has set a mark. */
  lemma Marked(m: Machine, n: Machine, a: Action, buf: string, p: nat, relaxed: bool)
    requires p < |buf| && n == Act(m, a, buf, p).(cs := n.cs)
    requires var there := Trans(n.cs, Ord(buf[p]), relaxed);
             there.Go? && Trans(m.cs, Ord(buf[p]), relaxed) == Go([a] + there.actions, there.to)
    ensures Run(m, buf, p, relaxed) == Run(n, buf, p, relaxed)
  {
    hide Trans;
    hide Act;
    var there := Trans(n.cs, Ord(buf[p]), relaxed);
    ActMore(m, a, there.actions, buf, p);
    ActsBlind(Act(m, a, buf, p), n.cs, there.actions, buf, p);
    hide ActAll;
  }

  // ---------- the method ----------

  lemma MethodRun(m: Machine, buf: string, q: nat, relaxed: bool)
    requires m.cs == START && q < |buf| && VerbText(buf[..q]) && buf[q] == ' '
    ensures Run(m, buf, 0, relaxed) == Run(Act(m.(mark := 0), OnMethod, buf, q).(cs := 3), buf, q + 1, relaxed)
  {
    hide Run;
    forall i | 0 <= i < q ensures MethodChar(Ord(buf[i])) {
      assert buf[i] == buf[..q][i];
    }
    FirstLetter(m, buf, relaxed);
    Letters(m.(cs := 2, mark := 0), buf, 1, 1, q, relaxed);
    hide MethodChar;
    hide MethodOf;
    assert Trans(MethodState(q), Ord(' '), relaxed) == Go([OnMethod], 3);
    OneDoes(m.(cs := MethodState(q), mark := 0), buf, q, relaxed, ' ', OnMethod, 3);
  }

  // ---------- the target ----------

  lemma {:induction false} RelRun(m: Machine, buf: string, p: nat, q: nat, s: string, relaxed: bool)
    requires m.cs == 19 && At(buf, p, s) && q == p + |s| && RelText(s, relaxed)
    ensures Run(m, buf, p, relaxed) == Run(m, buf, q, relaxed)
    decreases |s|
  {
    hide Run;
    if s == "" {
    } else if s[0] == '%' {
      assert buf[p] == s[0] && buf[p + 1] == s[1] && buf[p + 2] == s[2];
      One(m, buf, p, relaxed, s[0], [], 24);
      One(m.(cs := 24), buf, p + 1, relaxed, s[1], [], 25);
      One(m.(cs := 25), buf, p + 2, relaxed, s[2], [], 19);
      AtDrop(buf, p, s, 3);
      RelRun(m, buf, p + 3, q, s[3..], relaxed);
    } else {
      assert buf[p] == s[0];
      One(m, buf, p, relaxed, s[0], [], 19);
      AtDrop(buf, p, s, 1);
      RelRun(m, buf, p + 1, q, s[1..], relaxed);
    }
  }

  lemma PathEnd(m: Machine, buf: string, q: nat, relaxed: bool)
    requires (m.cs == 26 || m.cs == 19) && m.mark <= q < |buf| && buf[q] in " #?"
    ensures Run(m, buf, q, relaxed) ==
            Run(m.(cs := AfterPath(buf[q]), req := m.req.(path := buf[m.mark..q])), buf, q + 1, relaxed)
  {
    hide Run;
    var actions := if buf[q] == '?' then [OnPath] else [OnPath, OnUri];
    PathUri(m, buf, q, actions);
    One(m, buf, q, relaxed, buf[q], actions, AfterPath(buf[q]));
  }

  /** A path that does not begin with a slash, up to where its end is seen. */
  lemma RelativeRun(m: Machine, buf: string, p: nat, q: nat, s: string, relaxed: bool) returns (n: Machine)
    requires m.cs == 3 && At(buf, p, s) && q == p + |s| < |buf| && buf[q] in " #?"
    requires PathText(s, relaxed) && !GoodPath(s, relaxed)
    ensures (n.cs == 19 || n.cs == 26) && n == m.(cs := n.cs, mark := p)
    ensures Run(m, buf, p, relaxed) == Run(n, buf, q, relaxed)
  {
    hide Run;
    hide Trans;
    n := m.(cs := 19, mark := p);
    BeginsRelative(buf, p, q, s, relaxed);
    ThreeLikeNineteen(buf[p], relaxed);
    Marked(m, n, MarkHere, buf, p, relaxed);
    if RelText(s, relaxed) {
      RelRun(n, buf, p, q, s, relaxed);
    } else {
      var a: string, b: string :| TwoParts(s, a, b, relaxed);
      var k := p + |a|;
      AtParts(buf, p, a + "/", b);
      AtParts(buf, p, a, "/");
      AtChar(buf, k, "/");
      RelRun(n, buf, p, k, a, relaxed);
      RelMoves('/', relaxed);
      SlashGoes(relaxed);
      One(n, buf, k, relaxed, '/', [], 26);
      n := n.(cs := 26);
      Skip(n, buf, k + 1, q, b, relaxed);
    }
  }

  lemma SlashGoes(relaxed: bool)
    ensures Trans(19, Ord('/'), relaxed) == Go([], 26)
  {
  }

  lemma BeginsRelative(buf: string, p: nat, q: nat, s: string, relaxed: bool)
    requires At(buf, p, s) && q == p + |s| < |buf| && buf[q] in " #?" && PathText(s, relaxed) && !GoodPath(s, relaxed)
    ensures buf[p] != '/' && !Letter(buf[p]) && Trans(19, Ord(buf[p]), relaxed).Go?
  {
    if s != "" {
      AtChar(buf, p, s);
      if !RelText(s, relaxed) {
        var a: string, b: string :| TwoParts(s, a, b, relaxed);
        assert s[0] == a[0];
      }
    }
  }

  /** State 33 differs from state 26 for a slash only. */
  lemma AfterSlash(m: Machine, buf: string, p: nat, relaxed: bool)
    requires m.cs == 26 && p < |buf| && buf[p] != '/' && Trans(26, Ord(buf[p]), relaxed).Go?
    ensures Run(m.(cs := 33), buf, p, relaxed) == Run(m, buf, p, relaxed)
  {
    var a := Trans(26, Ord(buf[p]), relaxed);
    assert Trans(33, Ord(buf[p]), relaxed) == a;
    hide Trans;
    ActsBlind(m, 33, a.actions, buf, p);
  }

  lemma PathGoes(c: char, s: string, relaxed: bool)
    requires Escaped(s, true, relaxed) && if s == "" then c in " #?" else c == s[0]
    ensures Trans(26, Ord(c), relaxed).Go?
  {
  }

  lemma AbsoluteRun(m: Machine, buf: string, p: nat, q: nat, s: string, relaxed: bool) returns (n: Machine)
    requires m.cs == 3 && At(buf, p, s) && q == p + |s| < |buf| && buf[q] in " #?" && GoodPath(s, relaxed)
    ensures n == m.(cs := 26, mark := p) && Run(m, buf, p, relaxed) == Run(n, buf, q, relaxed)
  {
    hide Run;
    n := m.(cs := 26, mark := p);
    AtChar(buf, p, s);
    AtDrop(buf, p, s, 1);
    OneDoes(m, buf, p, relaxed, '/', MarkHere, 33);
    if |s| > 1 { AtChar(buf, p + 1, s[1..]); }
    PathGoes(buf[p + 1], s[1..], relaxed);
    hide Trans;
    AfterSlash(n, buf, p + 1, relaxed);
    Skip(n, buf, p + 1, q, s[1..], relaxed);
  }

  /** A path, from its first character to the one behind it. */
  lemma PathRun(m: Machine, buf: string, p: nat, q: nat, s: string, relaxed: bool) returns (n: Machine)
    requires m.cs == 3 && At(buf, p, s) && q == p + |s| < |buf| && buf[q] in " #?" && PathText(s, relaxed)
    ensures n == m.(cs := AfterPath(buf[q]), mark := p, req := m.req.(path := s))
    ensures Run(m, buf, p, relaxed) == Run(n, buf, q + 1, relaxed)
  {
    hide Run;
    hide PathText;
    hide GoodPath;
    var n1;
    if GoodPath(s, relaxed) {
      n1 := AbsoluteRun(m, buf, p, q, s, relaxed);
    } else {
      n1 := RelativeRun(m, buf, p, q, s, relaxed);
    }
    PathEnd(n1, buf, q, relaxed);
    n := m.(cs := AfterPath(buf[q]), mark := p, req := m.req.(path := s));
  }

  /** States 29 and 20 set a mark and go on as 30 and 21. */
  lemma BodyLike(cs: nat, c: char, relaxed: bool)
    requires cs == 29 || cs == 20
    ensures var a, b := Trans(cs, Ord(c), relaxed), Trans(cs + 1, Ord(c), relaxed);
            b.Go? ==> a == Go([if cs == 29 then MarkQuery else MarkHere] + b.actions, b.to)
  {
  }

  /** What ends or goes on in a query or a fragment is taken. */
  lemma BodyGoes(cs: nat, c: char, s: string, relaxed: bool)
    requires (cs == 30 || cs == 21) && Escaped(s, false, relaxed)
    requires if s == "" then c == ' ' || (cs == 30 && c == '#') else c == s[0]
    ensures Trans(cs, Ord(c), relaxed).Go?
  {
  }

  lemma MarkedBody(m: Machine, n: Machine, buf: string, p: nat, q: nat, s: string, relaxed: bool)
    requires (m.cs == 29 && n == m.(cs := 30, queryStart := p)) || (m.cs == 20 && n == m.(cs := 21, mark := p))
    requires At(buf, p, s) && q == p + |s| < |buf| && Escaped(s, false, relaxed) && (buf[q] == ' ' || (m.cs == 29 && buf[q] == '#'))
    ensures Run(m, buf, p, relaxed) == Run(n, buf, q, relaxed)
  {
    hide Run;
    if s != "" {
      AtChar(buf, p, s);
    }
    BodyGoes(n.cs, buf[p], s, relaxed);
    BodyLike(m.cs, buf[p], relaxed);
    hide Trans;
    Marked(m, n, if m.cs == 29 then MarkQuery else MarkHere, buf, p, relaxed);
    Skip(n, buf, p, q, s, relaxed);
  }

  lemma QueryRun(m: Machine, buf: string, p: nat, q: nat, s: string, relaxed: bool) returns (n: Machine)
    requires m.cs == 29 && At(buf, p, s) && q == p + |s| < |buf| && Escaped(s, false, relaxed) && buf[q] in " #"
    ensures n == m.(cs := AfterPath(buf[q]), queryStart := p, req := m.req.(query := s))
    ensures Run(m, buf, p, relaxed) == Run(n, buf, q + 1, relaxed)
  {
    hide Run;
    hide Escaped;
    var m1 := m.(cs := 30, queryStart := p);
    MarkedBody(m, m1, buf, p, q, s, relaxed);
    QueryUri(m1, buf, q);
    One(m1, buf, q, relaxed, buf[q], [OnQuery, OnUri], AfterPath(buf[q]));
    n := m.(cs := AfterPath(buf[q]), queryStart := p, req := m.req.(query := s));
  }

  lemma FragmentRun(m: Machine, buf: string, p: nat, q: nat, s: string, relaxed: bool) returns (n: Machine)
    requires m.cs == 20 && At(buf, p, s) && q == p + |s| < |buf| && Escaped(s, false, relaxed) && buf[q] == ' '
    ensures n == m.(cs := 4, mark := p, req := m.req.(fragment := s))
    ensures Run(m, buf, p, relaxed) == Run(n, buf, q + 1, relaxed)
  {
    hide Run;
    hide Escaped;
    var m1 := m.(cs := 21, mark := p);
    MarkedBody(m, m1, buf, p, q, s, relaxed);
    OneDoes(m1, buf, q, relaxed, ' ', OnFragment, 4);
    n := m.(cs := 4, mark := p, req := m.req.(fragment := s));
  }

  lemma TargetPieces(buf: string, p: nat, h: Head)
    requires At(buf, p, TargetText(h)) && (h.mark == "?" || h.mark == h.query == "") && (h.hash == "#" || h.hash == h.fragment == "")
    requires p + |TargetText(h)| < |buf| && buf[p + |TargetText(h)|] == ' '
    ensures var a := p + |h.path|;
            var b := a + |h.mark| + |h.query|;
            At(buf, p, h.path) && At(buf, a + |h.mark|, h.query) && At(buf, b + |h.hash|, h.fragment) &&
            b + |h.hash| + |h.fragment| == p + |TargetText(h)| &&
            buf[a] == (if h.mark == "?" then '?' else if h.hash == "#" then '#' else ' ') &&
            buf[b] == (if h.hash == "#" then '#' else ' ')
  {
    hide At;
    var a := p + |h.path|;
    var b := a + |h.mark| + |h.query|;
    AtParts(buf, p, h.path + h.mark + h.query + h.hash, h.fragment);
    AtParts(buf, p, h.path + h.mark + h.query, h.hash);
    AtParts(buf, p, h.path + h.mark, h.query);
    AtParts(buf, p, h.path, h.mark);
    if h.mark == "?" { AtChar(buf, a, h.mark); }
    if h.hash == "#" { AtChar(buf, b, h.hash); }
  }

  lemma TargetRun(m: Machine, buf: string, p: nat, q: nat, h: Head, relaxed: bool) returns (n: Machine)
    requires m.cs == 3 && GoodParts(h, relaxed) && At(buf, p, TargetText(h)) && q == p + |TargetText(h)| < |buf| && buf[q] == ' '
    ensures n.cs == 4 && n.error == m.error && n.req == Aimed(m.req, h)
    ensures Run(m, buf, p, relaxed) == Run(n, buf, q + 1, relaxed)
  {
    hide Run;
    hide PathText;
    hide Escaped;
    TargetPieces(buf, p, h);
    hide At;
    hide TargetText;
    var a := p + |h.path|;
    var b := a + |h.mark| + |h.query|;
    n := PathRun(m, buf, p, a, h.path, relaxed);
    if h.mark == "?" {
      n := QueryRun(n, buf, a + 1, b, h.query, relaxed);
    }
    n := FragmentEnd(n, buf, b, h, relaxed);
  }

  lemma FragmentEnd(m: Machine, buf: string, b: nat, h: Head, relaxed: bool) returns (n: Machine)
    requires b < |buf| && m.cs == AfterPath(buf[b]) && buf[b] == (if h.hash == "#" then '#' else ' ')
    requires (h.hash == "#" || h.hash == h.fragment == "") && Escaped(h.fragment, false, relaxed)
    requires var q := b + |h.hash| + |h.fragment|; q < |buf| && buf[q] == ' ' && At(buf, b + |h.hash|, h.fragment)
    ensures n.cs == 4 && n.error == m.error && n.req == m.req.(fragment := if h.hash == "" then m.req.fragment else h.fragment)
    ensures Run(m, buf, b + 1, relaxed) == Run(n, buf, b + |h.hash| + |h.fragment| + 1, relaxed)
  {
    hide Run;
    hide Escaped;
    hide At;
    n := m;
    if h.hash == "#" {
      n := FragmentRun(n, buf, b + 1, b + 1 + |h.fragment|, h.fragment, relaxed);
    }
  }

  // ---------- the rest of the request line ----------

  /** The end of a line, with the action at its first character. */
  lemma EolRun(m: Machine, a: Action, buf: string, p: nat, eol: string, relaxed: bool)
    requires (m.cs == 12 && a == OnVersion) || (m.cs == 16 && a == OnField)
    requires IsEol(eol) && At(buf, p, eol)
    ensures Run(m, buf, p, relaxed) == Run(Act(m, a, buf, p).(cs := 13), buf, p + |eol|, relaxed)
  {
    hide Run;
    hide Act;
    AtChar(buf, p, eol);
    if eol == "\n" {
      OneDoes(m, buf, p, relaxed, '\n', a, 13);
    } else {
      assert buf[p..p + 2][1] == '\n';
      OneDoes(m, buf, p, relaxed, '\r', a, 17);
      One(Act(m, a, buf, p).(cs := 17), buf, p + 1, relaxed, '\n', [], 13);
    }
  }

  lemma VersionRun(m: Machine, buf: string, p: nat, version: string, eol: string, relaxed: bool) returns (n: Machine)
    requires m.cs == 4 && (version == "HTTP/1.0" || version == "HTTP/1.1") && IsEol(eol) && At(buf, p, version + eol)
    ensures n.cs == 13 && n.error == m.error && n.req == m.req.(version := if version == "HTTP/1.0" then 0x10 else 0x11)
    ensures Run(m, buf, p, relaxed) == Run(n, buf, p + 8 + |eol|, relaxed)
  {
    hide Run;
    hide At;
    hide Trans;
    AtParts(buf, p, version, eol);
    AtChar(buf, p + 8, eol);
    Eight(m, buf, p, version, relaxed);
    var m1 := m.(cs := 12, mark := p);
    VersionRead(m1, buf, p + 8, version, if version == "HTTP/1.0" then 0x10 else 0x11);
    hide Act;
    EolRun(m1, OnVersion, buf, p + 8, eol, relaxed);
    n := Act(m1, OnVersion, buf, p + 8).(cs := 13);
  }

  // ---------- header fields ----------

  lemma KeyAndColon(m: Machine, buf: string, p: nat, q: nat, key: string, relaxed: bool)
    requires m.cs == 13 && KeyText(key) && At(buf, p, key) && q == p + |key| < |buf| && buf[q] == ':'
    ensures Run(m, buf, p, relaxed) == Run(m.(cs := 15, fieldStart := p, fieldLen := |key|), buf, q + 1, relaxed)
  {
    hide Run;
    forall i | p <= i < q ensures buf[i] == key[i - p] {
      assert buf[p..q][i - p] == key[i - p];
    }
    var m1 := m.(cs := 14, fieldStart := p);
    if key[0] == '\r' {
      OneDoes(m, buf, p, relaxed, '\r', MarkField, 18);
      LikeFourteen(m1, buf, p + 1, relaxed);
    } else {
      OneDoes(m, buf, p, relaxed, key[0], MarkField, 14);
    }
    KeyRun(m1, buf, p + 1, q, relaxed);
    OneDoes(m1, buf, q, relaxed, ':', FieldLength, 15);
  }

  lemma LikeFourteen(m: Machine, buf: string, p: nat, relaxed: bool)
    requires m.cs == 14 && p < |buf| && buf[p] != '\n' && (buf[p] == ':' || FieldRest(Ord(buf[p])))
    ensures Run(m.(cs := 18), buf, p, relaxed) == Run(m, buf, p, relaxed)
  {
    var a := Trans(14, Ord(buf[p]), relaxed);
    assert Trans(18, Ord(buf[p]), relaxed) == a && a.Go?;
    hide Trans;
    ActsBlind(m, 18, a.actions, buf, p);
  }

  lemma {:induction false} BlanksRun(m: Machine, buf: string, p: nat, blank: string, relaxed: bool) returns (last: nat)
    requires m.cs == 15 && BlankText(blank) && At(buf, p, blank)
    ensures Run(m, buf, p, relaxed) == Run(m.(mark := last), buf, p + |blank|, relaxed)
    decreases |blank|
  {
    hide Run;
    last := m.mark;
    if blank != "" {
      AtChar(buf, p, blank);
      AtDrop(buf, p, blank, 1);
      assert blank[0] in blank && forall c <- blank[1..] :: c in blank;
      BlankMoves(buf[p], relaxed);
      OneDoes(m, buf, p, relaxed, buf[p], MarkHere, 15);
      last := BlanksRun(m.(mark := p), buf, p + 1, blank[1..], relaxed);
    }
  }

  /** What begins a value or ends its line. */
  lemma FifteenMarks(c: char, relaxed: bool)
    requires c != ' ' && c != '\t' && (ValueChar(Ord(c)) || c == '\n' || c == '\r')
    ensures var there := Trans(16, Ord(c), relaxed);
            there.Go? && Trans(15, Ord(c), relaxed) == Go([MarkHere] + there.actions, there.to)
  {
  }

  lemma ContentRun(m: Machine, buf: string, p: nat, value: string, eol: string, relaxed: bool) returns (n: Machine)
    requires m.cs == 15 && GoodValue(value) && IsEol(eol) && At(buf, p, value + eol)
    ensures n == Act(m.(mark := p), OnField, buf, p + |value|).(cs := 13)
    ensures Run(m, buf, p, relaxed) == Run(n, buf, p + |value| + |eol|, relaxed)
  {
    hide Run;
    var q := p + |value|;
    AtParts(buf, p, value, eol);
    AtChar(buf, q, eol);
    forall i | p <= i < q ensures buf[i] == value[i - p] {
      assert buf[p..q][i - p] == value[i - p];
    }
    FifteenMarks(buf[p], relaxed);
    hide Trans;
    var m1 := m.(cs := 16, mark := p);
    Marked(m, m1, MarkHere, buf, p, relaxed);
    ValueRun(m1, buf, p, q, relaxed);
    hide Act;
    EolRun(m1, OnField, buf, q, eol, relaxed);
    ActBlind(m.(mark := p), 16, OnField, buf, q);
    n := Act(m.(mark := p), OnField, buf, q).(cs := 13);
  }

  lemma FieldPieces(buf: string, p: nat, f: Field)
    requires At(buf, p, FieldText(f)) && GoodField(f)
    ensures KeyText(f.key) && BlankText(f.blank) && GoodValue(f.value) && IsEol(f.eol)
    ensures var k := p + |f.key|;
            At(buf, p, f.key) && k < |buf| && buf[k] == ':' && At(buf, k + 1, f.blank) &&
            At(buf, k + 1 + |f.blank|, f.value + f.eol) && k + 1 + |f.blank| + |f.value| < |buf|
    ensures |FieldText(f)| == |f.key| + 1 + |f.blank| + |f.value| + |f.eol|
  {
    assert FieldText(f) == f.key + ":" + f.blank + (f.value + f.eol);
    hide At;
    AtParts(buf, p, f.key + ":" + f.blank, f.value + f.eol);
    AtParts(buf, p, f.key + ":", f.blank);
    AtParts(buf, p, f.key, ":");
    AtChar(buf, p + |f.key|, ":");
  }

  lemma FieldRun(m: Machine, buf: string, p: nat, f: Field, relaxed: bool) returns (n: Machine)
    requires m.cs == 13 && GoodField(f) && At(buf, p, FieldText(f))
    ensures n.cs == 13 && n.error == m.error && n.req == m.req.(headers := Put(m.req.headers, f.key, f.value))
    ensures Run(m, buf, p, relaxed) == Run(n, buf, p + |FieldText(f)|, relaxed)
  {
    hide Run;
    hide At;
    hide Put;
    hide KeyText;
    hide GoodValue;
    hide BlankText;
    hide Trans;
    FieldPieces(buf, p, f);
    KeyNotEmpty(f.key);
    hide FieldText;
    var k := p + |f.key|;
    var v := k + 1 + |f.blank|;
    KeyAndColon(m, buf, p, k, f.key, relaxed);
    var m1 := m.(cs := 15, fieldStart := p, fieldLen := |f.key|);
    var mark := BlanksRun(m1, buf, k + 1, f.blank, relaxed);
    n := ContentRun(m1.(mark := mark), buf, v, f.value, f.eol, relaxed);
    hide Act;
    AtParts(buf, v, f.value, f.eol);
    FieldSet(m1.(mark := v), buf, v + |f.value|, f.key, f.value);
  }

  /** The callback. */
  lemma FieldSet(m: Machine, buf: string, q: nat, key: string, value: string)
    requires key != "" && At(buf, m.fieldStart, key) && m.fieldLen == |key| && At(buf, m.mark, value) && q == m.mark + |value| < |buf|
    ensures Act(m, OnField, buf, q) == m.(req := m.req.(headers := Put(m.req.headers, key, value)))
  {
  }

  lemma KeyNotEmpty(key: string)
    requires KeyText(key)
    ensures key != ""
  {
  }

  lemma {:induction false} FieldsRun(m: Machine, buf: string, p: nat, fields: seq<Field>, relaxed: bool) returns (n: Machine)
    requires m.cs == 13 && (forall f <- fields :: GoodField(f)) && At(buf, p, FieldsText(fields))
    ensures n.cs == 13 && n.error == m.error && n.req == m.req.(headers := PutFields(m.req.headers, fields))
    ensures Run(m, buf, p, relaxed) == Run(n, buf, p + |FieldsText(fields)|, relaxed)
    decreases |fields|
  {
    hide Run;
    hide Put;
    hide At;
    hide GoodField;
    hide FieldText;
    n := m;
    if fields != [] {
      AtParts(buf, p, FieldText(fields[0]), FieldsText(fields[1..]));
      n := FieldRun(m, buf, p, fields[0], relaxed);
      n := FieldsRun(n, buf, p + |FieldText(fields[0])|, fields[1..], relaxed);
    }
  }

  /** The empty line. */
  lemma EndLineRun(m: Machine, buf: string, p: nat, end: string, relaxed: bool)
    requires m.cs == 13 && IsEol(end) && At(buf, p, end)
    ensures var s := Run(m, buf, p, relaxed);
            s.p == p + |end| == s.m.bodyStart && !s.outside && s.m.cs == FINAL && s.m.req == m.req && s.m.error == m.error
  {
    if end == "\n" {
      AtChar(buf, p, end);
      ActTwo(m, MarkField, OnDone, buf, p);
    } else {
      EndRun(m, buf, p, relaxed);
    }
  }

  // ---------- all of it ----------

  /** Where the parts of a head lie. */
  predicate Lies(buf: string, h: Head, q: nat, e: nat, f: nat, l: nat)
  {
    q == |h.verb| && e == q + 1 + |TargetText(h)| && f == e + 9 + |h.eol| && l == f + |FieldsText(h.fields)| &&
    l + |h.end| <= |buf| && buf[..q] == h.verb && buf[q] == ' ' && At(buf, q + 1, TargetText(h)) && buf[e] == ' ' &&
    At(buf, e + 1, h.version + h.eol) && At(buf, f, FieldsText(h.fields)) && At(buf, l, h.end)
  }

  lemma HeadLies(buf: string, h: Head, rest: string) returns (q: nat, e: nat, f: nat, l: nat)
    requires buf == HeadText(h) + rest && |h.version| == 8
    ensures Lies(buf, h, q, e, f, l) && l + |h.end| == |HeadText(h)|
  {
    HeadTextIs(h);
    hide HeadText;
    hide TargetText;
    hide FieldsText;
    hide At;
    var t, v, fs := TargetText(h), h.version + h.eol, FieldsText(h.fields);
    q, e := |h.verb|, |h.verb| + 1 + |t|;
    f, l := e + 1 + |v|, e + 1 + |v| + |fs|;
    Pieces(buf, h.verb, t, v, fs, h.end, rest);
  }

  lemma HeadTextIs(h: Head)
    ensures HeadText(h) == h.verb + " " + TargetText(h) + " " + (h.version + h.eol) + FieldsText(h.fields) + h.end
  {
    hide TargetText;
    hide FieldsText;
  }

  lemma Pieces(buf: string, verb: string, t: string, v: string, f: string, end: string, rest: string)
    requires buf == verb + " " + t + " " + v + f + end + rest
    ensures var q := |verb|;
            var e := q + 1 + |t|;
            var l := e + 1 + |v| + |f|;
            l + |end| <= |buf| && buf[..q] == verb && buf[q] == ' ' && At(buf, q + 1, t) && buf[e] == ' ' &&
            At(buf, e + 1, v) && At(buf, e + 1 + |v|, f) && At(buf, l, end)
  {
    assert At(buf, 0, verb + " " + t + " " + v + f + end + rest);
    AtParts(buf, 0, verb + " " + t + " " + v + f + end, rest);
    hide At;
    AtParts(buf, 0, verb + " " + t + " " + v + f, end);
    AtParts(buf, 0, verb + " " + t + " " + v, f);
    AtParts(buf, 0, verb + " " + t + " ", v);
    AtParts(buf, 0, verb + " " + t, " ");
    AtParts(buf, 0, verb + " ", t);
    AtParts(buf, 0, verb, " ");
    AtChar(buf, |verb|, " ");
    AtChar(buf, |verb| + 1 + |t|, " ");
  }

  /** The parser once it knows the method. */
  function BegunWith(buf: string): (m: Machine)
    ensures var verb := MethodOf(buf, 0);
            m.cs == 3 && m.mark == 0 && m.error == (if verb == INVALID_METHOD then 1000 else 0) &&
            m.req == Request(if verb == INVALID_METHOD then 1 else verb, 0x11, true, "/", "", "", "", [])
  {
    var m, verb := NewMachine(), MethodOf(buf, 0);
    if verb == INVALID_METHOD then m.(cs := 3, error := 1000) else m.(cs := 3, req := m.req.(verb := verb))
  }

  lemma VerbRead(buf: string, q: nat, relaxed: bool)
    requires q < |buf| && VerbText(buf[..q]) && buf[q] == ' '
    ensures Run(NewMachine(), buf, 0, relaxed) == Run(BegunWith(buf), buf, q + 1, relaxed)
  {
    hide Run;
    var m := NewMachine();
    MethodRun(m, buf, q, relaxed);
    hide MethodOf;
    hide VerbText;
    assert buf[0..] == buf && m.(mark := 0) == m;
    assert Act(m, OnMethod, buf, q).(cs := 3) == BegunWith(buf);
  }

  lemma LineRun(m: Machine, buf: string, p: nat, e: nat, h: Head, relaxed: bool) returns (n: Machine)
    requires m.cs == 3 && p <= e < |buf| && GoodParts(h, relaxed) && At(buf, p, TargetText(h)) && e == p + |TargetText(h)| && buf[e] == ' '
    requires (h.version == "HTTP/1.0" || h.version == "HTTP/1.1") && IsEol(h.eol) && At(buf, e + 1, h.version + h.eol)
    ensures n.cs == 13 && n.error == m.error
    ensures n.req == Aimed(m.req, h).(version := if h.version == "HTTP/1.0" then 0x10 else 0x11)
    ensures Run(m, buf, p, relaxed) == Run(n, buf, e + 9 + |h.eol|, relaxed)
  {
    hide *;
    var m2 := TargetRun(m, buf, p, e, h, relaxed);
    n := VersionRun(m2, buf, e + 1, h.version, h.eol, relaxed);
  }

  lemma LineMeans(buf: string, h: Head, q: nat, e: nat, f: nat, l: nat, relaxed: bool) returns (n: Machine)
    requires GoodHead(h, relaxed) && Lies(buf, h, q, e, f, l)
    ensures n.cs == 13 && f <= |buf| && Run(NewMachine(), buf, 0, relaxed) == Run(n, buf, f, relaxed)
    ensures n.error == (if MethodOf(buf, 0) == INVALID_METHOD then 1000 else 0)
    ensures n.req == Meant(h, MethodOf(buf, 0)).(headers := [])
  {
    hide Run;
    hide At;
    hide MethodOf;
    hide GoodField;
    hide PathText;
    hide Escaped;
    hide TargetText;
    hide FieldsText;
    VerbRead(buf, q, relaxed);
    n := LineRun(BegunWith(buf), buf, q + 1, e, h, relaxed);
  }

  /** A head of the grammar, with anything behind it, is accepted: the parser stops behind
      the head, and the request is the one the head says. */
  lemma GrammarAccepted(h: Head, rest: string, relaxed: bool)
    requires GoodHead(h, relaxed)
    ensures var buf := HeadText(h) + rest;
            var s, verb := Run(NewMachine(), buf, 0, relaxed), MethodOf(buf, 0);
            s.m.cs == FINAL && !s.outside && s.p == s.m.bodyStart == |HeadText(h)| &&
            s.m.error == (if verb == INVALID_METHOD then 1000 else 0) &&
            s.m.req == Meant(h, verb)
  {
    hide Run;
    hide At;
    hide MethodOf;
    hide HeadText;
    hide GoodField;
    hide GoodParts;
    hide TargetText;
    hide FieldsText;
    var buf := HeadText(h) + rest;
    var q, e, f, l := HeadLies(buf, h, rest);
    var n := LineMeans(buf, h, q, e, f, l, relaxed);
    n := FieldsRun(n, buf, f, h.fields, relaxed);
    EndLineRun(n, buf, l, h.end, relaxed);
  }

  /** So the parser accepts exactly the texts that begin with a head of the grammar. */
  lemma AcceptedIff(buf: string, relaxed: bool)
    ensures Run(NewMachine(), buf, 0, relaxed).m.cs == FINAL <==> exists h, rest :: GoodHead(h, relaxed) && buf == HeadText(h) + rest
  {
    hide Run;
    hide GoodHead;
    hide HeadText;
    if Run(NewMachine(), buf, 0, relaxed).m.cs == FINAL {
      var h := Accepted(buf, relaxed);
      var p := Run(NewMachine(), buf, 0, relaxed).p;
      assert buf == buf[..p] + buf[p..];
    }
    if h, rest :| GoodHead(h, relaxed) && buf == HeadText(h) + rest {
      GrammarAccepted(h, rest, relaxed);
    }
  }
}

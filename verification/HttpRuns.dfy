/** What the parts of a request may hold, and runs of the machine over a character or a few. */
module HttpRuns {
  import opened Codec
  import opened HttpSpec
  import opened HttpMachine

  // ---------- paths, queries, keys and values ----------

  predicate HexChar(c: char) { Hex(Ord(c)) }

  /** Characters the target may hold, and %XX. */
  predicate Escaped(s: string, inPath: bool, relaxed: bool)
  {
    s == "" ||
    if s[0] == '%' then |s| >= 3 && HexChar(s[1]) && HexChar(s[2]) && Escaped(s[3..], inPath, relaxed)
    else (if inPath then PathChar(Wide(Ord(s[0]), relaxed)) else UriChar(Wide(Ord(s[0]), relaxed))) &&
         Escaped(s[1..], inPath, relaxed)
  }

  predicate GoodPath(s: string, relaxed: bool)
  {
    s != "" && s[0] == '/' && (|s| > 1 ==> s[1] != '/') && Escaped(s[1..], true, relaxed)
  }

  predicate GoodKey(s: string)
  {
    s != "" && FieldFirst(Ord(s[0])) && forall i :: 1 <= i < |s| ==> FieldRest(Ord(s[i]))
  }

  /** The token characters of section 3.2.6 of RFC 7230. */
  predicate TokenChar(c: char)
  {
    c in "!#$%&'*+-.^_`|~" || '0' <= c <= '9' || 'A' <= c <= 'Z' || 'a' <= c <= 'z'
  }

  /** Every token can be a key; the machine takes some control characters besides. */
  lemma TokensAreKeys(s: string)
    requires s != "" && forall i :: 0 <= i < |s| ==> TokenChar(s[i])
    ensures GoodKey(s)
  {
  }

  predicate GoodValue(s: string)
  {
    (s != "" ==> s[0] != ' ' && s[0] != '\t') && forall i :: 0 <= i < |s| ==> ValueChar(Ord(s[i]))
  }

  /** A parser fresh from its constructor: HttpRequest's defaults are GET, HTTP/1.1, "/". */
  function NewMachine(): (m: Machine)
  {
    Machine(START, 0, 0, 0, 0, 0, Request(1, 0x11, true, "/", "", "", "", []), 0)
  }

  // ---------- runs over pieces of the text ----------

  predicate At(buf: string, p: nat, s: string)
  {
    p + |s| <= |buf| && buf[p..p + |s|] == s
  }

  lemma AtParts(buf: string, p: nat, a: string, b: string)
    requires At(buf, p, a + b)
    ensures At(buf, p, a) && At(buf, p + |a|, b)
  {
    assert (a + b)[..|a|] == a && (a + b)[|a|..] == b;
    assert buf[p..p + |a|] == buf[p..p + |a + b|][..|a|];
    assert buf[p + |a|..p + |a| + |b|] == buf[p..p + |a + b|][|a|..];
  }

  lemma AtChar(buf: string, p: nat, s: string)
    requires At(buf, p, s) && s != ""
    ensures p < |buf| && buf[p] == s[0]
  {
    assert buf[p..p + |s|][0] == buf[p];
  }

  lemma AtDrop(buf: string, p: nat, s: string, k: nat)
    requires At(buf, p, s) && k <= |s|
    ensures At(buf, p + k, s[k..]) && p + k + |s[k..]| == p + |s|
  {
    AtParts(buf, p, s[..k], s[k..]);
    assert s[..k] + s[k..] == s;
  }

  /** One character. */
  lemma One(m: Machine, buf: string, p: nat, relaxed: bool, c: char, actions: seq<Action>, to: nat)
    requires p < |buf| && buf[p] == c && Trans(m.cs, Ord(c), relaxed) == Go(actions, to) && to != FINAL
    ensures Run(m, buf, p, relaxed) == Run(ActAll(m, actions, buf, p).(cs := to), buf, p + 1, relaxed)
  {
  }

  /** One character, with one action. */
  lemma OneDoes(m: Machine, buf: string, p: nat, relaxed: bool, c: char, a: Action, to: nat)
    requires p < |buf| && buf[p] == c && Trans(m.cs, Ord(c), relaxed) == Go([a], to) && to != FINAL
    ensures Run(m, buf, p, relaxed) == Run(Act(m, a, buf, p).(cs := to), buf, p + 1, relaxed)
  {
    assert [a][1..] == [];
    One(m, buf, p, relaxed, c, [a], to);
  }

  lemma FailsHere(m: Machine, buf: string, p: nat, relaxed: bool)
    requires p < |buf| && Trans(m.cs, Ord(buf[p]), relaxed).Fail?
    ensures Run(m, buf, p, relaxed).m.cs == 0
  {
  }

  /** The states that take the characters of a path, a query or a fragment. */
  predicate Body(cs: nat)
  {
    cs == 26 || cs == 30 || cs == 21
  }

  lemma OneEscape(m: Machine, buf: string, p: nat, s: string, relaxed: bool)
    requires Body(m.cs) && At(buf, p, s) && |s| >= 3 && s[0] == '%' && HexChar(s[1]) && HexChar(s[2])
    ensures Run(m, buf, p, relaxed) == Run(m, buf, p + 3, relaxed)
  {
    var m1, m2 := m.(cs := m.cs + 1), m.(cs := m.cs + 2);
    assert buf[p] == s[0] && buf[p + 1] == s[1] && buf[p + 2] == s[2];
    One(m, buf, p, relaxed, s[0], [], m.cs + 1);
    One(m1, buf, p + 1, relaxed, s[1], [], m.cs + 2);
    One(m2, buf, p + 2, relaxed, s[2], [], m.cs);
  }

  lemma OnePlain(m: Machine, buf: string, p: nat, s: string, relaxed: bool)
    requires Body(m.cs) && At(buf, p, s) && s != "" && s[0] != '%' && Escaped(s, m.cs == 26, relaxed)
    ensures Run(m, buf, p, relaxed) == Run(m, buf, p + 1, relaxed)
  {
    assert buf[p] == s[0];
    One(m, buf, p, relaxed, s[0], [], m.cs);
  }

  /** Characters of the target are passed over. */
  lemma {:induction false} Skip(m: Machine, buf: string, p: nat, q: nat, s: string, relaxed: bool)
    requires Body(m.cs) && At(buf, p, s) && q == p + |s| && Escaped(s, m.cs == 26, relaxed)
    ensures Run(m, buf, p, relaxed) == Run(m, buf, q, relaxed)
    decreases |s|
  {
    if s == "" {
    } else if s[0] == '%' {
      OneEscape(m, buf, p, s, relaxed);
      AtDrop(buf, p, s, 3);
      Skip(m, buf, p + 3, q, s[3..], relaxed);
    } else {
      OnePlain(m, buf, p, s, relaxed);
      AtDrop(buf, p, s, 1);
      Skip(m, buf, p + 1, q, s[1..], relaxed);
    }
  }

  // ---------- the request line ----------

  function MethodState(k: nat): nat
    requires k > 0
  {
    if k == 1 then 2 else 173 + k
  }

  lemma {:induction false} Letters(m: Machine, buf: string, p: nat, k: nat, q: nat, relaxed: bool)
    requires 1 <= k <= q <= 20 && q <= |buf| && p == k && m.cs == MethodState(k)
    requires forall i :: k <= i < q ==> MethodChar(Ord(buf[i]))
    ensures Run(m, buf, p, relaxed) == Run(m.(cs := MethodState(q)), buf, q, relaxed)
    decreases q - k
  {
    hide Run;
    if k < q {
      One(m, buf, p, relaxed, buf[k], [], MethodState(k + 1));
      Letters(m.(cs := MethodState(k + 1)), buf, p + 1, k + 1, q, relaxed);
    }
  }

  lemma FirstLetter(m: Machine, buf: string, relaxed: bool)
    requires m.cs == START && buf != "" && MethodChar(Ord(buf[0]))
    ensures Run(m, buf, 0, relaxed) == Run(m.(cs := 2, mark := 0), buf, 1, relaxed)
  {
    hide Run;
    OneDoes(m, buf, 0, relaxed, buf[0], MarkHere, 2);
  }

  /** What ends a path, a query or a fragment, and where it leads. */
  function AfterPath(c: char): nat
  {
    if c == ' ' then 4 else if c == '#' then 20 else 29
  }

  lemma PathUri(m: Machine, buf: string, p: nat, actions: seq<Action>)
    requires p < |buf| && (actions == [OnPath, OnUri] || actions == [OnPath])
    ensures ActAll(m, actions, buf, p) == m.(req := m.req.(path := Span(buf, m.mark, p)))
  {
    var m1 := Act(m, OnPath, buf, p);
    assert [OnUri][1..] == [];
    assert ActAll(m1, [OnUri], buf, p) == m1 && ActAll(m1, [], buf, p) == m1;
    assert actions[1..] == [OnUri] || actions[1..] == [];
  }

  lemma QueryUri(m: Machine, buf: string, p: nat)
    requires p < |buf|
    ensures ActAll(m, [OnQuery, OnUri], buf, p) == m.(req := m.req.(query := Span(buf, m.queryStart, p)))
  {
    assert [OnQuery, OnUri][1..] == [OnUri] && [OnUri][1..] == [];
  }

  lemma Five(m: Machine, buf: string, p: nat, relaxed: bool)
    requires m.cs == 4 && p + 5 <= |buf|
    requires buf[p] == 'H' && buf[p + 1] == 'T' && buf[p + 2] == 'T' && buf[p + 3] == 'P' && buf[p + 4] == '/'
    ensures Run(m, buf, p, relaxed) == Run(m.(cs := 9, mark := p), buf, p + 5, relaxed)
  {
    hide Run;
    OneDoes(m, buf, p, relaxed, 'H', MarkHere, 5);
    var m1 := m.(mark := p);
    Plain(m1.(cs := 5), buf, p + 1, 'T', relaxed);
    Plain(m1.(cs := 6), buf, p + 2, 'T', relaxed);
    Plain(m1.(cs := 7), buf, p + 3, 'P', relaxed);
    Plain(m1.(cs := 8), buf, p + 4, '/', relaxed);
  }

  lemma Eight(m: Machine, buf: string, p: nat, text: string, relaxed: bool)
    requires m.cs == 4 && |text| == 8 && (text == "HTTP/1.1" || text == "HTTP/1.0") && At(buf, p, text)
    ensures Run(m, buf, p, relaxed) == Run(m.(cs := 12, mark := p), buf, p + 8, relaxed)
  {
    hide Run;
    var m1 := m.(mark := p);
    forall i | 0 <= i < 8 ensures buf[p + i] == text[i] {
      assert buf[p..p + 8][i] == text[i];
    }
    assert buf[p] == text[0] && buf[p + 1] == text[1] && buf[p + 2] == text[2] && buf[p + 3] == text[3];
    assert buf[p + 4] == text[4] && buf[p + 5] == text[5] && buf[p + 6] == text[6] && buf[p + 7] == text[7];
    Five(m, buf, p, relaxed);
    Plain(m1.(cs := 9), buf, p + 5, '1', relaxed);
    Plain(m1.(cs := 10), buf, p + 6, '.', relaxed);
    Plain(m1.(cs := 11), buf, p + 7, text[7], relaxed);
  }

  /** One of them. */
  lemma Plain(m: Machine, buf: string, p: nat, c: char, relaxed: bool)
    requires 5 <= m.cs <= 11 && p < |buf| && buf[p] == c
    requires Trans(m.cs, Ord(c), relaxed) == Go([], m.cs + 1)
    ensures Run(m, buf, p, relaxed) == Run(m.(cs := m.cs + 1), buf, p + 1, relaxed)
  {
    hide Run;
    One(m, buf, p, relaxed, c, [], m.cs + 1);
  }

  lemma VersionRead(m: Machine, buf: string, q: nat, text: string, version: nat)
    requires (text == "HTTP/1.1" && version == 0x11) || (text == "HTTP/1.0" && version == 0x10)
    requires q == m.mark + |text| < |buf| && At(buf, m.mark, text)
    ensures Act(m, OnVersion, buf, q) == m.(req := m.req.(version := version))
  {
    assert Span(buf, m.mark, q) == text;
    SameStartWhole(text);
    assert text == "HTTP/1.0" ==> !SameStart(text, "HTTP/1.1") by { SameStartEqual(text, "HTTP/1.1"); }
  }

  lemma {:induction false} SameStartWhole(s: string)
    ensures SameStart(s, s)
  {
    if s != "" {
      SameStartWhole(s[1..]);
    }
  }

  lemma {:induction false} SameStartEqual(s: string, t: string)
    requires |s| == |t|
    ensures SameStart(s, t) <==> s == t
  {
    if s != "" {
      SameStartEqual(s[1..], t[1..]);
      assert s == [s[0]] + s[1..] && t == [t[0]] + t[1..];
    }
  }

  // ---------- header lines ----------

  lemma {:induction false} KeyRun(m: Machine, buf: string, p: nat, q: nat, relaxed: bool)
    requires m.cs == 14 && p <= q <= |buf| && forall i :: p <= i < q ==> FieldRest(Ord(buf[i]))
    ensures Run(m, buf, p, relaxed) == Run(m, buf, q, relaxed)
    decreases q - p
  {
    hide Run;
    if p < q {
      One(m, buf, p, relaxed, buf[p], [], 14);
      KeyRun(m, buf, p + 1, q, relaxed);
    }
  }

  lemma {:induction false} ValueRun(m: Machine, buf: string, p: nat, q: nat, relaxed: bool)
    requires m.cs == 16 && p <= q <= |buf| && forall i :: p <= i < q ==> ValueChar(Ord(buf[i]))
    ensures Run(m, buf, p, relaxed) == Run(m, buf, q, relaxed)
    decreases q - p
  {
    hide Run;
    if p < q {
      One(m, buf, p, relaxed, buf[p], [], 16);
      ValueRun(m, buf, p + 1, q, relaxed);
    }
  }

  /** The empty line: the run stops behind it. */
  lemma EndRun(m: Machine, buf: string, p: nat, relaxed: bool)
    requires m.cs == 13 && At(buf, p, CRLF)
    ensures var s := Run(m, buf, p, relaxed);
            s.p == p + 2 && !s.outside && s.m.cs == FINAL && s.m.bodyStart == p + 2 && s.m.req == m.req && s.m.error == m.error
  {
    assert buf[p..p + 2][0] == '\r' && buf[p..p + 2][1] == '\n';
    OneDoes(m, buf, p, relaxed, '\r', MarkField, 18);
    var m1 := m.(cs := 18, fieldStart := p);
    LastCharacter(m1, buf, p + 1, relaxed);
  }

  lemma LastCharacter(m: Machine, buf: string, p: nat, relaxed: bool)
    requires m.cs == 18 && p < |buf| && buf[p] == '\n'
    ensures Run(m, buf, p, relaxed) == Stop(m.(cs := FINAL, bodyStart := p + 1), p + 1, false)
  {
    assert [OnDone][1..] == [];
  }
}

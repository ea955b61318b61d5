/** What the request machine accepts: if a run comes to the final state, the text it has
    read is a request of the grammar below, and the request it has filled is that one. */
module HttpGrammar {
  import opened Codec
  import opened HttpSpec
  import opened HttpMachine
  import opened HttpRuns

  // ---------- the grammar ----------

  datatype Field = Field(key: string, blank: string, value: string, eol: string)

  datatype Head = Head(verb: string, path: string, mark: string, query: string, hash: string, fragment: string,
                       version: string, eol: string, fields: seq<Field>, end: string)

  /** The two ends of a line. */
  predicate IsEol(s: string)
  {
    s == "\n" || s == "\r\n"
  }

  /** One to twenty capitals or digits. */
  predicate VerbText(s: string)
  {
    1 <= |s| <= 20 && forall c <- s :: MethodChar(Ord(c))
  }

  /** What a path that does not begin with a slash is made of, up to its first slash. */
  predicate RelChar(w: int)
  {
    PathChar(w) && w >= 0 && w != 47 && w != 58
  }

  predicate RelText(s: string, relaxed: bool)
  {
    s == "" ||
    if s[0] == '%' then |s| >= 3 && HexChar(s[1]) && HexChar(s[2]) && RelText(s[3..], relaxed)
    else RelChar(Wide(Ord(s[0]), relaxed)) && RelText(s[1..], relaxed)
  }

  predicate Letter(c: char)
  {
    'A' <= c <= 'Z' || 'a' <= c <= 'z'
  }

  /** A path: absolute, or nothing, or a segment without a colon, which does not begin with
      a letter, and perhaps more behind a slash. */
  ghost predicate PathText(s: string, relaxed: bool)
  {
    GoodPath(s, relaxed) ||
    ((s == "" || !Letter(s[0])) && (RelText(s, relaxed) || exists a: string, b: string :: TwoParts(s, a, b, relaxed)))
  }

  predicate TwoParts(s: string, a: string, b: string, relaxed: bool)
  {
    s == a + "/" + b && a != "" && RelText(a, relaxed) && Escaped(b, true, relaxed)
  }

  /** A field name, which may begin with CR if LF does not follow. */
  predicate KeyText(s: string)
  {
    s != "" && (FieldFirst(Ord(s[0])) || (s[0] == '\r' && (|s| > 1 ==> s[1] != '\n'))) &&
    forall i :: 1 <= i < |s| ==> FieldRest(Ord(s[i]))
  }

  predicate BlankText(s: string)
  {
    forall c <- s :: c == ' ' || c == '\t'
  }

  predicate GoodField(f: Field)
  {
    KeyText(f.key) && BlankText(f.blank) && GoodValue(f.value) && IsEol(f.eol)
  }

  /** The target of a head. */
  ghost predicate GoodParts(h: Head, relaxed: bool)
  {
    PathText(h.path, relaxed) &&
    (h.mark == "?" || h.mark == h.query == "") && Escaped(h.query, false, relaxed) &&
    (h.hash == "#" || h.hash == h.fragment == "") && Escaped(h.fragment, false, relaxed)
  }

  ghost predicate GoodHead(h: Head, relaxed: bool)
  {
    VerbText(h.verb) && GoodParts(h, relaxed) && (h.version == "HTTP/1.0" || h.version == "HTTP/1.1") && IsEol(h.eol) &&
    (forall f <- h.fields :: GoodField(f)) && IsEol(h.end)
  }

  function FieldText(f: Field): string
  {
    f.key + ":" + f.blank + f.value + f.eol
  }

  function FieldsText(fields: seq<Field>): string
  {
    if fields == [] then "" else FieldText(fields[0]) + FieldsText(fields[1..])
  }

  function TargetText(h: Head): string
  {
    h.path + h.mark + h.query + h.hash + h.fragment
  }

  function HeadText(h: Head): string
  {
    h.verb + " " + TargetText(h) + " " + h.version + h.eol + FieldsText(h.fields) + h.end
  }

  /** Each field sets its key. */
  function PutFields(to: seq<Header>, fields: seq<Field>): seq<Header>
    decreases |fields|
  {
    if fields == [] then to else PutFields(Put(to, fields[0].key, fields[0].value), fields[1..])
  }

  /** The request a head says, in a text that begins with the name of method `verb`. */
  function Meant(h: Head, verb: nat): Request
  {
    Request(if verb == INVALID_METHOD then 1 else verb, if h.version == "HTTP/1.0" then 0x10 else 0x11, true,
            h.path, h.query, h.fragment, "", PutFields([], h.fields))
  }

  // ---------- the characters ----------

  predicate AlphaNumeric(c: char)
  {
    '0' <= c <= '9' || 'A' <= c <= 'Z' || 'a' <= c <= 'z'
  }

  /** In a target: pchar of section 3.3 of RFC 3986 and slash and question mark, the bytes
      from 128 on, and three characters more if uri_relaxed is set. */
  lemma TargetChars(c: char, relaxed: bool)
    ensures HexChar(c) <==> c in "0123456789ABCDEFabcdef"
    ensures UriChar(Wide(Ord(c), relaxed)) <==>
            AlphaNumeric(c) || c in "-._~!$&'()*+,;=:@/?" || c as int >= 128 || (relaxed && c in "^{}")
    ensures PathChar(Wide(Ord(c), relaxed)) <==> UriChar(Wide(Ord(c), relaxed)) && c != '?'
  {
  }

  lemma RelChars(c: char, relaxed: bool)
    ensures RelChar(Wide(Ord(c), relaxed)) <==> PathChar(Wide(Ord(c), relaxed)) && c != ':' && c != '/' && c as int < 128
  {
    hide UriChar;
  }

  /** In a method, a field name and a field value; a name may hold control characters. */
  lemma HeaderChars(c: char)
    ensures MethodChar(Ord(c)) <==> '0' <= c <= '9' || 'A' <= c <= 'Z'
    ensures FieldRest(Ord(c)) <==> TokenChar(c) || (0 < c as int < 32 && c != '\t')
    ensures FieldFirst(Ord(c)) <==> TokenChar(c) || (0 < c as int < 32 && c != '\t' && c != '\n' && c != '\r')
    ensures ValueChar(Ord(c)) <==> c as int != 0 && c as int != 127 && c != '\n' && c != '\r'
  {
  }

  // ---------- accepting runs, step by step ----------

  predicate Accepts(m: Machine, buf: string, p: nat, relaxed: bool)
  {
    p <= |buf| && Run(m, buf, p, relaxed).m.cs == FINAL
  }

  /** An accepting run takes a step. */
  lemma Step(m: Machine, buf: string, p: nat, relaxed: bool) returns (next: Machine)
    requires Accepts(m, buf, p, relaxed) && m.cs != FINAL
    ensures p < |buf| && Trans(m.cs, Ord(buf[p]), relaxed).Go?
    ensures var go := Trans(m.cs, Ord(buf[p]), relaxed);
            next == ActAll(m, go.actions, buf, p).(cs := go.to) &&
            if go.to == FINAL then Run(m, buf, p, relaxed) == Stop(next, p + 1, false)
            else Run(m, buf, p, relaxed) == Run(next, buf, p + 1, relaxed) && Accepts(next, buf, p + 1, relaxed)
  {
    var go := Trans(m.cs, Ord(buf[p]), relaxed);
    next := ActAll(m, go.actions, buf, p).(cs := go.to);
  }

  lemma ActOne(m: Machine, a: Action, buf: string, p: nat)
    requires p < |buf|
    ensures ActAll(m, [a], buf, p) == Act(m, a, buf, p)
  {
    assert [a][1..] == [];
  }

  lemma ActTwo(m: Machine, a: Action, b: Action, buf: string, p: nat)
    requires p < |buf|
    ensures ActAll(m, [a, b], buf, p) == Act(Act(m, a, buf, p), b, buf, p)
  {
    assert [a, b][1..] == [b];
    ActOne(Act(m, a, buf, p), b, buf, p);
  }

  lemma ActThree(m: Machine, a: Action, b: Action, c: Action, buf: string, p: nat)
    requires p < |buf|
    ensures ActAll(m, [a, b, c], buf, p) == Act(Act(Act(m, a, buf, p), b, buf, p), c, buf, p)
  {
    assert [a, b, c][1..] == [b, c];
    ActTwo(Act(m, a, buf, p), b, c, buf, p);
  }

  /** Two states that take the next character alike. */
  lemma Alike(m: Machine, n: Machine, buf: string, p: nat, relaxed: bool)
    requires Accepts(m, buf, p, relaxed) && m.cs != FINAL
    requires p < |buf| ==>
               var a, b := Trans(m.cs, Ord(buf[p]), relaxed), Trans(n.cs, Ord(buf[p]), relaxed);
               a.Go? ==> b.Go? && a.to == b.to && ActAll(m, a.actions, buf, p).(cs := a.to) == ActAll(n, b.actions, buf, p).(cs := b.to)
    ensures Run(m, buf, p, relaxed) == Run(n, buf, p, relaxed) && Accepts(n, buf, p, relaxed)
  {
    var next := Step(m, buf, p, relaxed);
  }

  // ---------- the method ----------

  lemma VerbMoves(p: nat, c: char, relaxed: bool)
    requires 0 < p <= 20
    ensures var go := Trans(MethodState(p), Ord(c), relaxed);
            go.Go? ==> if c == ' ' then go == Go([OnMethod], 3)
                       else p < 20 && MethodChar(Ord(c)) && go == Go([], MethodState(p + 1))
  {
  }

  lemma {:induction false} VerbTail(m: Machine, buf: string, p: nat, relaxed: bool) returns (q: nat, n: Machine)
    requires Accepts(m, buf, p, relaxed) && p > 0 && m.cs == MethodState(p)
    requires p <= 20 && m.mark == 0 && forall c <- buf[..p] :: MethodChar(Ord(c))
    ensures p <= q < |buf| && q <= 20 && buf[q] == ' ' && forall c <- buf[..q] :: MethodChar(Ord(c))
    ensures n == Act(m, OnMethod, buf, q).(cs := 3)
    ensures Run(m, buf, p, relaxed) == Run(n, buf, q + 1, relaxed) && Accepts(n, buf, q + 1, relaxed)
    decreases |buf| - p
  {
    hide Run;
    hide MethodOf;
    VerbMoves(p, if p < |buf| then buf[p] else ' ', relaxed);
    hide Trans;
    var next := Step(m, buf, p, relaxed);
    if buf[p] == ' ' {
      q, n := p, next;
      ActOne(m, OnMethod, buf, p);
    } else {
      assert buf[..p + 1] == buf[..p] + [buf[p]];
      q, n := VerbTail(next, buf, p + 1, relaxed);
    }
  }

  // ---------- the target ----------

  lemma EscapedMore(buf: string, p: nat, k: nat, q: nat, inPath: bool, relaxed: bool)
    requires p < p + k <= q <= |buf| && Escaped(buf[p + k..q], inPath, relaxed)
    requires (k == 3 && buf[p] == '%' && HexChar(buf[p + 1]) && HexChar(buf[p + 2])) ||
             (k == 1 && buf[p] != '%' && UriChar(Wide(Ord(buf[p]), relaxed)) && (inPath ==> buf[p] != '?'))
    ensures Escaped(buf[p..q], inPath, relaxed)
  {
    assert buf[p..q][k..] == buf[p + k..q];
  }

  /** What the states of a path, a query or a fragment take. */
  lemma BodyMoves(cs: nat, c: char, relaxed: bool)
    requires Body(cs)
    ensures var go := Trans(cs, Ord(c), relaxed);
            go.Go? ==>
              if c == '%' then go == Go([], cs + 1)
              else if go.to == cs then
                go.actions == [] && UriChar(Wide(Ord(c), relaxed)) && (cs == 26 ==> c != '?')
              else c == ' ' || (c == '#' && cs != 21) || (c == '?' && cs == 26)
  {
  }

  lemma HexMoves(cs: nat, c: char, relaxed: bool)
    requires cs in {24, 25, 27, 28, 31, 32, 22, 23}
    ensures var go := Trans(cs, Ord(c), relaxed);
            go.Go? ==> HexChar(c) && go == Go([], if cs in {24, 27, 31, 22} then cs + 1 else if cs == 25 then 19 else cs - 2)
  {
  }

  /** An escape is passed over. */
  lemma EscapeTaken(m: Machine, buf: string, p: nat, relaxed: bool)
    requires Accepts(m, buf, p, relaxed) && (Body(m.cs) || m.cs == 19) && p < |buf| && buf[p] == '%'
    ensures p + 3 <= |buf| && HexChar(buf[p + 1]) && HexChar(buf[p + 2])
    ensures Run(m, buf, p, relaxed) == Run(m, buf, p + 3, relaxed) && Accepts(m, buf, p + 3, relaxed)
  {
    hide Run;
    assert Trans(m.cs, Ord('%'), relaxed) == Go([], if m.cs == 19 then 24 else m.cs + 1);
    hide Trans;
    var next := Step(m, buf, p, relaxed);
    var next1 := Step(next, buf, p + 1, relaxed);
    HexMoves(next.cs, buf[p + 1], relaxed);
    var next2 := Step(next1, buf, p + 2, relaxed);
    HexMoves(next1.cs, buf[p + 2], relaxed);
    assert next2 == m;
  }

  /** What runs on in a path, a query or a fragment. */
  lemma {:induction false} BodyTaken(m: Machine, buf: string, p: nat, relaxed: bool) returns (q: nat)
    requires Accepts(m, buf, p, relaxed) && Body(m.cs)
    ensures p <= q < |buf| && Escaped(buf[p..q], m.cs == 26, relaxed)
    ensures buf[q] == ' ' || (buf[q] == '#' && m.cs != 21) || (buf[q] == '?' && m.cs == 26)
    ensures Run(m, buf, p, relaxed) == Run(m, buf, q, relaxed) && Accepts(m, buf, q, relaxed)
    decreases |buf| - p
  {
    hide Run;
    hide Trans;
    var next := Step(m, buf, p, relaxed);
    BodyMoves(m.cs, buf[p], relaxed);
    if buf[p] == '%' {
      EscapeTaken(m, buf, p, relaxed);
      q := BodyTaken(m, buf, p + 3, relaxed);
      EscapedMore(buf, p, 3, q, m.cs == 26, relaxed);
    } else if next.cs == m.cs {
      assert next == m;
      q := BodyTaken(m, buf, p + 1, relaxed);
      EscapedMore(buf, p, 1, q, m.cs == 26, relaxed);
    } else {
      q := p;
    }
  }

  lemma RelMore(buf: string, p: nat, k: nat, q: nat, relaxed: bool)
    requires p < p + k <= q <= |buf| && RelText(buf[p + k..q], relaxed)
    requires (k == 3 && buf[p] == '%' && HexChar(buf[p + 1]) && HexChar(buf[p + 2])) ||
             (k == 1 && buf[p] != '%' && RelChar(Wide(Ord(buf[p]), relaxed)))
    ensures RelText(buf[p..q], relaxed)
  {
    assert buf[p..q][k..] == buf[p + k..q];
  }

  lemma RelMoves(c: char, relaxed: bool)
    ensures var go := Trans(19, Ord(c), relaxed);
            go.Go? ==>
              if c == '%' then go == Go([], 24)
              else if go.to == 19 then go.actions == [] && RelChar(Wide(Ord(c), relaxed))
              else c in " #?/" && (c == '/' ==> go == Go([], 26))
  {
  }

  /** The first segment of a path that does not begin with a slash. */
  lemma {:induction false} RelTaken(m: Machine, buf: string, p: nat, relaxed: bool) returns (q: nat)
    requires Accepts(m, buf, p, relaxed) && m.cs == 19
    ensures p <= q < |buf| && RelText(buf[p..q], relaxed) && buf[q] in " #?/"
    ensures Run(m, buf, p, relaxed) == Run(m, buf, q, relaxed) && Accepts(m, buf, q, relaxed)
    decreases |buf| - p
  {
    hide Run;
    hide Trans;
    var next := Step(m, buf, p, relaxed);
    RelMoves(buf[p], relaxed);
    if buf[p] == '%' {
      EscapeTaken(m, buf, p, relaxed);
      q := RelTaken(m, buf, p + 3, relaxed);
      RelMore(buf, p, 3, q, relaxed);
    } else if next.cs == 19 {
      assert next == m;
      q := RelTaken(m, buf, p + 1, relaxed);
      RelMore(buf, p, 1, q, relaxed);
    } else {
      q := p;
    }
  }

  lemma SlashMoves(c: char, relaxed: bool)
    ensures Trans(33, Ord(c), relaxed).Go? ==> c != '/' && Trans(33, Ord(c), relaxed) == Trans(26, Ord(c), relaxed)
  {
  }

  /** A path that begins with a slash, */
  lemma AbsoluteTaken(m: Machine, buf: string, p: nat, relaxed: bool) returns (q: nat, n: Machine)
    requires Accepts(m, buf, p, relaxed) && m.cs == 3 && p < |buf| && buf[p] == '/'
    ensures p <= q < |buf| && GoodPath(buf[p..q], relaxed) && buf[q] in " #?" && n == m.(cs := 26, mark := p)
    ensures Run(m, buf, p, relaxed) == Run(n, buf, q, relaxed) && Accepts(n, buf, q, relaxed)
  {
    hide Run;
    n := SlashTaken(m, buf, p, relaxed);
    q := BodyTaken(n, buf, p + 1, relaxed);
    assert buf[p..q][1..] == buf[p + 1..q];
  }

  lemma SlashTaken(m: Machine, buf: string, p: nat, relaxed: bool) returns (n: Machine)
    requires Accepts(m, buf, p, relaxed) && m.cs == 3 && p < |buf| && buf[p] == '/'
    ensures n == m.(cs := 26, mark := p) && p + 1 < |buf| && buf[p + 1] != '/'
    ensures Run(m, buf, p, relaxed) == Run(n, buf, p + 1, relaxed) && Accepts(n, buf, p + 1, relaxed)
  {
    hide Run;
    assert Trans(3, Ord('/'), relaxed) == Go([MarkHere], 33);
    hide Trans;
    var next := Step(m, buf, p, relaxed);
    ActOne(m, MarkHere, buf, p);
    n := m.(cs := 26, mark := p);
    hide Act;
    hide ActAll;
    assert next == n.(cs := 33);
    var next1 := Step(next, buf, p + 1, relaxed);
    SlashMoves(buf[p + 1], relaxed);
    ActsBlind(n, 33, Trans(26, Ord(buf[p + 1]), relaxed).actions, buf, p + 1);
    Alike(next, n, buf, p + 1, relaxed);
  }

  /** and one that does not. */
  lemma RelativeTaken(m: Machine, buf: string, p: nat, relaxed: bool) returns (q: nat, n: Machine)
    requires Accepts(m, buf, p, relaxed) && m.cs == 3 && p < |buf| && buf[p] != '/'
    ensures p <= q < |buf| && PathText(buf[p..q], relaxed) && buf[q] in " #?"
    ensures (n.cs == 19 || n.cs == 26) && n == m.(cs := n.cs, mark := p)
    ensures Run(m, buf, p, relaxed) == Run(n, buf, q, relaxed) && Accepts(n, buf, q, relaxed)
  {
    hide Run;
    hide Trans;
    hide RelText;
    n := m.(cs := 19, mark := p);
    MarkedAlike(m, n, buf, p, relaxed);
    q := RelTaken(n, buf, p, relaxed);
    if buf[q] == '/' {
      var a := buf[p..q];
      var next1 := Step(n, buf, q, relaxed);
      RelMoves('/', relaxed);
      n := n.(cs := 26);
      assert next1 == n;
      q := BodyTaken(n, buf, q + 1, relaxed);
      assert TwoParts(buf[p..q], a, buf[p + |a| + 1..q], relaxed);
    }
  }

  /** A path of either kind; its end is seen in state 19 or 26. */
  lemma PathTaken(m: Machine, buf: string, p: nat, relaxed: bool) returns (q: nat, n: Machine)
    requires Accepts(m, buf, p, relaxed) && m.cs == 3
    ensures p <= q < |buf| && PathText(buf[p..q], relaxed) && buf[q] in " #?"
    ensures (n.cs == 19 || n.cs == 26) && n == m.(cs := n.cs, mark := p)
    ensures Run(m, buf, p, relaxed) == Run(n, buf, q, relaxed) && Accepts(n, buf, q, relaxed)
  {
    hide Run;
    hide Trans;
    var next := Step(m, buf, p, relaxed);
    if buf[p] == '/' {
      q, n := AbsoluteTaken(m, buf, p, relaxed);
    } else {
      q, n := RelativeTaken(m, buf, p, relaxed);
    }
  }

  /** State 3 sets the mark and goes on as state 19 would. */
  lemma ThreeLikeNineteen(c: char, relaxed: bool)
    requires c != '/'
    ensures var a, b := Trans(3, Ord(c), relaxed), Trans(19, Ord(c), relaxed);
            (a.Go? ==> b.Go? && a.to == b.to && a.actions == [MarkHere] + b.actions && !Letter(c)) &&
            (b.Go? && !Letter(c) ==> a.Go?)
  {
  }

  lemma ActMore(m: Machine, a: Action, rest: seq<Action>, buf: string, p: nat)
    requires p < |buf|
    ensures ActAll(m, [a] + rest, buf, p) == ActAll(Act(m, a, buf, p), rest, buf, p)
  {
    assert ([a] + rest)[1..] == rest;
  }

  /** Actions do not look at the state. */
  lemma {:induction false} ActsBlind(m: Machine, cs: nat, actions: seq<Action>, buf: string, p: nat)
    requires p < |buf|
    ensures ActAll(m.(cs := cs), actions, buf, p) == ActAll(m, actions, buf, p).(cs := cs)
    decreases |actions|
  {
    if actions != [] {
      ActBlind(m, cs, actions[0], buf, p);
      hide Act;
      ActsBlind(Act(m, actions[0], buf, p), cs, actions[1..], buf, p);
    }
  }

  lemma MarkedAlike(m: Machine, n: Machine, buf: string, p: nat, relaxed: bool)
    requires Accepts(m, buf, p, relaxed) && m.cs == 3 && n == m.(cs := 19, mark := p) && p < |buf| && buf[p] != '/'
    ensures Run(m, buf, p, relaxed) == Run(n, buf, p, relaxed) && Accepts(n, buf, p, relaxed) && !Letter(buf[p])
  {
    hide Run;
    var next := Step(m, buf, p, relaxed);
    ThreeLikeNineteen(buf[p], relaxed);
    hide Trans;
    var rest := Trans(19, Ord(buf[p]), relaxed);
    if rest.Go? {
      ActMore(m, MarkHere, rest.actions, buf, p);
      ActsBlind(m.(mark := p), 19, rest.actions, buf, p);
    }
    Alike(m, n, buf, p, relaxed);
  }

  /** A query, from behind its question mark to where its end is seen. */
  lemma QueryTaken(m: Machine, buf: string, p: nat, relaxed: bool) returns (q: nat, n: Machine)
    requires Accepts(m, buf, p, relaxed) && m.cs == 29
    ensures p <= q < |buf| && Escaped(buf[p..q], false, relaxed) && buf[q] in " #"
    ensures n == m.(cs := if buf[q] == ' ' then 4 else 20, queryStart := p, req := m.req.(query := buf[p..q]))
    ensures Run(m, buf, p, relaxed) == Run(n, buf, q + 1, relaxed) && Accepts(n, buf, q + 1, relaxed)
  {
    hide Run;
    var next := Step(m, buf, p, relaxed);
    var m1 := m.(cs := 30, queryStart := p);
    ActOne(m, MarkQuery, buf, p);
    ActThree(m, MarkQuery, OnQuery, OnUri, buf, p);
    ActTwo(m1, OnQuery, OnUri, buf, p);
    Alike(m, m1, buf, p, relaxed);
    q := BodyTaken(m1, buf, p, relaxed);
    n := Step(m1, buf, q, relaxed);
    ActTwo(m1, OnQuery, OnUri, buf, q);
  }

  lemma FragmentTaken(m: Machine, buf: string, p: nat, relaxed: bool) returns (q: nat, n: Machine)
    requires Accepts(m, buf, p, relaxed) && m.cs == 20
    ensures p <= q < |buf| && Escaped(buf[p..q], false, relaxed) && buf[q] == ' '
    ensures n == m.(cs := 4, mark := p, req := m.req.(fragment := buf[p..q]))
    ensures Run(m, buf, p, relaxed) == Run(n, buf, q + 1, relaxed) && Accepts(n, buf, q + 1, relaxed)
  {
    hide Run;
    var next := Step(m, buf, p, relaxed);
    var m1 := m.(cs := 21, mark := p);
    ActOne(m, MarkHere, buf, p);
    ActTwo(m, MarkHere, OnFragment, buf, p);
    ActOne(m1, OnFragment, buf, p);
    Alike(m, m1, buf, p, relaxed);
    q := BodyTaken(m1, buf, p, relaxed);
    n := Step(m1, buf, q, relaxed);
    ActOne(m1, OnFragment, buf, q);
  }

  lemma EndOfPath(m: Machine, buf: string, q: nat, relaxed: bool) returns (n: Machine)
    requires Accepts(m, buf, q, relaxed) && (m.cs == 19 || m.cs == 26) && m.mark <= q < |buf| && buf[q] in " #?"
    ensures n == m.(req := m.req.(path := buf[m.mark..q]), cs := if buf[q] == ' ' then 4 else if buf[q] == '#' then 20 else 29)
    ensures Run(m, buf, q, relaxed) == Run(n, buf, q + 1, relaxed) && Accepts(n, buf, q + 1, relaxed)
  {
    hide Run;
    n := Step(m, buf, q, relaxed);
    ActOne(m, OnPath, buf, q);
    ActTwo(m, OnPath, OnUri, buf, q);
  }

  /** The parts of a head that are not in the target are left open. */
  function OnlyTarget(path: string, mark: string, query: string, hash: string, fragment: string): Head
  {
    Head("", path, mark, query, hash, fragment, "", "", [], "")
  }

  /** The request with the target filled in. */
  function Aimed(r: Request, h: Head): Request
  {
    r.(path := h.path, query := if h.mark == "" then r.query else h.query,
       fragment := if h.hash == "" then r.fragment else h.fragment)
  }

  /** Behind the path: nothing, or a query, */
  lemma QueryPart(m: Machine, buf: string, q: nat, relaxed: bool) returns (sign: string, text: string, e: nat, n: Machine)
    requires Accepts(m, buf, q, relaxed) && (m.cs == 19 || m.cs == 26) && m.mark <= q < |buf| && buf[q] in " #?"
    ensures q <= e < |buf| && buf[e] in " #" && buf[q..e] == sign + text
    ensures (sign == "?" || sign == text == "") && Escaped(text, false, relaxed)
    ensures n.cs == (if buf[e] == ' ' then 4 else 20) && n.error == m.error
    ensures n.req == m.req.(path := buf[m.mark..q], query := if sign == "" then m.req.query else text)
    ensures Run(m, buf, q, relaxed) == Run(n, buf, e + 1, relaxed) && Accepts(n, buf, e + 1, relaxed)
  {
    hide Run;
    hide Trans;
    hide Act;
    sign, text, e := "", "", q;
    n := EndOfPath(m, buf, q, relaxed);
    if buf[q] == '?' {
      e, n := QueryTaken(n, buf, q + 1, relaxed);
      sign, text := "?", buf[q + 1..e];
      assert buf[q..e] == [buf[q]] + text;
    }
  }

  /** and nothing, or a fragment. */
  lemma FragmentPart(m: Machine, buf: string, q: nat, relaxed: bool) returns (sign: string, text: string, e: nat, n: Machine)
    requires 0 < q && Accepts(m, buf, q, relaxed) && q - 1 < |buf| && m.cs == if buf[q - 1] == ' ' then 4 else 20
    requires buf[q - 1] in " #"
    ensures q - 1 <= e < |buf| && buf[e] == ' ' && buf[q - 1..e] == sign + text
    ensures (sign == "#" || sign == text == "") && Escaped(text, false, relaxed)
    ensures n.cs == 4 && n.error == m.error && n.req == m.req.(fragment := if sign == "" then m.req.fragment else text)
    ensures Run(m, buf, q, relaxed) == Run(n, buf, e + 1, relaxed) && Accepts(n, buf, e + 1, relaxed)
  {
    hide Run;
    hide Trans;
    sign, text, e, n := "", "", q - 1, m;
    if buf[q - 1] == '#' {
      e, n := FragmentTaken(m, buf, q, relaxed);
      sign, text := "#", buf[q..e];
      assert buf[q - 1..e] == [buf[q - 1]] + text;
    }
  }

  lemma TargetTaken(m: Machine, buf: string, p: nat, relaxed: bool) returns (h: Head, e: nat, n: Machine)
    requires Accepts(m, buf, p, relaxed) && m.cs == 3
    ensures p <= e < |buf| && buf[e] == ' ' && buf[p..e] == TargetText(h) && GoodParts(h, relaxed)
    ensures n.cs == 4 && n.error == m.error && n.req == Aimed(m.req, h)
    ensures Run(m, buf, p, relaxed) == Run(n, buf, e + 1, relaxed) && Accepts(n, buf, e + 1, relaxed)
  {
    hide Run;
    hide PathText;
    hide Escaped;
    hide Trans;
    var q, n1 := PathTaken(m, buf, p, relaxed);
    var mark, query, r, n2 := QueryPart(n1, buf, q, relaxed);
    var hash, fragment;
    hash, fragment, e, n := FragmentPart(n2, buf, r + 1, relaxed);
    h := OnlyTarget(buf[p..q], mark, query, hash, fragment);
    Join3(buf, p, q, r);
    Join3(buf, p, r, e);
    Groups(h.path, mark, query, hash, fragment);
  }

  lemma Groups(a: string, b: string, c: string, d: string, e: string)
    ensures a + (b + c) + (d + e) == a + b + c + d + e
  {
  }

  // ---------- the version ----------

  lemma Exactly(m: Machine, buf: string, p: nat, c: char, relaxed: bool) returns (n: Machine)
    requires Accepts(m, buf, p, relaxed) && 5 <= m.cs <= 10 && c == "TTP/1."[m.cs - 5]
    ensures p < |buf| && buf[p] == c && n == m.(cs := m.cs + 1)
    ensures Run(m, buf, p, relaxed) == Run(n, buf, p + 1, relaxed) && Accepts(n, buf, p + 1, relaxed)
  {
    hide Run;
    n := Step(m, buf, p, relaxed);
  }

  /** "HTTP/1.", and the state that takes the last digit. */
  lemma NameTaken(m: Machine, buf: string, p: nat, relaxed: bool) returns (n: Machine)
    requires Accepts(m, buf, p, relaxed) && m.cs == 4
    ensures p + 7 <= |buf| && buf[p..p + 7] == "HTTP/1." && n == m.(cs := 11, mark := p)
    ensures Run(m, buf, p, relaxed) == Run(n, buf, p + 7, relaxed) && Accepts(n, buf, p + 7, relaxed)
  {
    hide Run;
    n := Step(m, buf, p, relaxed);
    ActOne(m, MarkHere, buf, p);
    assert buf[p] == 'H' && n == m.(cs := 5, mark := p);
    hide Trans;
    hide ActAll;
    n := Exactly(n, buf, p + 1, 'T', relaxed);
    n := Exactly(n, buf, p + 2, 'T', relaxed);
    n := Exactly(n, buf, p + 3, 'P', relaxed);
    n := Exactly(n, buf, p + 4, '/', relaxed);
    n := Exactly(n, buf, p + 5, '1', relaxed);
    n := Exactly(n, buf, p + 6, '.', relaxed);
  }

  /** LF, or CR and LF, with the action at the first of them. */
  lemma EolTaken(m: Machine, a: Action, buf: string, p: nat, relaxed: bool) returns (eol: string, e: nat, n: Machine)
    requires Accepts(m, buf, p, relaxed) && p < |buf| && (m.cs == 12 || (m.cs == 16 && (buf[p] == '\n' || buf[p] == '\r')))
    requires a == if m.cs == 12 then OnVersion else OnField
    ensures IsEol(eol) && e == p + |eol| <= |buf| && buf[p..e] == eol
    ensures n == Act(m, a, buf, p).(cs := 13)
    ensures Run(m, buf, p, relaxed) == Run(n, buf, e, relaxed) && Accepts(n, buf, e, relaxed)
  {
    hide Run;
    hide Act;
    n := Step(m, buf, p, relaxed);
    ActOne(m, a, buf, p);
    if buf[p] == '\n' {
      eol, e := "\n", p + 1;
    } else {
      assert n == Act(m, a, buf, p).(cs := 17);
      n := Step(n, buf, p + 1, relaxed);
      eol, e := "\r\n", p + 2;
    }
  }

  lemma VersionTaken(m: Machine, buf: string, p: nat, relaxed: bool) returns (name: string, eol: string, e: nat, n: Machine)
    requires Accepts(m, buf, p, relaxed) && m.cs == 4
    ensures (name == "HTTP/1.0" || name == "HTTP/1.1") && IsEol(eol)
    ensures p + 8 <= e <= |buf| && buf[p..e] == name + eol
    ensures n.cs == 13 && n.error == m.error && n.req == m.req.(version := if name == "HTTP/1.0" then 0x10 else 0x11)
    ensures Run(m, buf, p, relaxed) == Run(n, buf, e, relaxed) && Accepts(n, buf, e, relaxed)
  {
    hide Run;
    hide Trans;
    hide SameStart;
    n := NameTaken(m, buf, p, relaxed);
    n := LastDigit(n, buf, p + 7, relaxed);
    name := buf[p..p + 8];
    Join3(buf, p, p + 7, p + 8);
    VersionKnown(name);
    var next := Step(n, buf, p + 8, relaxed);
    eol, e, n := EolTaken(n, OnVersion, buf, p + 8, relaxed);
    Join3(buf, p, p + 8, e);
  }

  lemma LastDigit(m: Machine, buf: string, p: nat, relaxed: bool) returns (n: Machine)
    requires Accepts(m, buf, p, relaxed) && m.cs == 11
    ensures p < |buf| && (buf[p] == '0' || buf[p] == '1') && n == m.(cs := 12)
    ensures Run(m, buf, p, relaxed) == Run(n, buf, p + 1, relaxed) && Accepts(n, buf, p + 1, relaxed)
  {
    hide Run;
    n := Step(m, buf, p, relaxed);
  }

  lemma VersionKnown(v: string)
    requires v == "HTTP/1.0" || v == "HTTP/1.1"
    ensures SameStart(v, "HTTP/1.1") <==> v == "HTTP/1.1"
    ensures SameStart(v, "HTTP/1.0") <==> v == "HTTP/1.0"
  {
    SameStartEqual(v, "HTTP/1.1");
    SameStartEqual(v, "HTTP/1.0");
  }

  // ---------- header fields ----------

  /** The rest of a key, up to its colon. */
  lemma {:induction false} KeyTaken(m: Machine, buf: string, p: nat, relaxed: bool) returns (q: nat, n: Machine)
    requires Accepts(m, buf, p, relaxed) && (m.cs == 14 || m.cs == 18) && (m.cs == 18 ==> p < |buf| && buf[p] != '\n')
    ensures p <= q < |buf| && buf[q] == ':' && forall i :: p <= i < q ==> FieldRest(Ord(buf[i]))
    ensures n == Act(m, FieldLength, buf, q).(cs := 15)
    ensures Run(m, buf, p, relaxed) == Run(n, buf, q + 1, relaxed) && Accepts(n, buf, q + 1, relaxed)
    decreases |buf| - p
  {
    hide Run;
    var next := Step(m, buf, p, relaxed);
    if buf[p] == ':' {
      ActOne(m, FieldLength, buf, p);
      q, n := p, next;
    } else {
      q, n := KeyTaken(next, buf, p + 1, relaxed);
    }
  }

  /** What a header value goes on with. */
  lemma {:induction false} ValueTaken(m: Machine, buf: string, p: nat, relaxed: bool) returns (q: nat)
    requires Accepts(m, buf, p, relaxed) && m.cs == 16
    ensures p <= q < |buf| && (buf[q] == '\n' || buf[q] == '\r') && forall i :: p <= i < q ==> ValueChar(Ord(buf[i]))
    ensures Run(m, buf, p, relaxed) == Run(m, buf, q, relaxed) && Accepts(m, buf, q, relaxed)
    decreases |buf| - p
  {
    hide Run;
    var next := Step(m, buf, p, relaxed);
    if buf[p] == '\n' || buf[p] == '\r' {
      q := p;
    } else {
      assert next == m;
      q := ValueTaken(m, buf, p + 1, relaxed);
    }
  }

  /** Behind the colon: blanks, the value and the end of the line. */
  lemma BlankMoves(c: char, relaxed: bool)
    ensures c == ' ' || c == '\t' ==> Trans(15, Ord(c), relaxed) == Go([MarkHere], 15)
  {
  }

  lemma {:induction false} ContentTaken(m: Machine, buf: string, p: nat, relaxed: bool)
    returns (v: nat, q: nat, eol: string, e: nat, n: Machine)
    requires Accepts(m, buf, p, relaxed) && m.cs == 15
    ensures p <= v <= q <= e <= |buf| && BlankText(buf[p..v]) && GoodValue(buf[v..q]) && IsEol(eol) && buf[q..e] == eol
    ensures q < |buf| && n == Act(m.(mark := v), OnField, buf, q).(cs := 13)
    ensures Run(m, buf, p, relaxed) == Run(n, buf, e, relaxed) && Accepts(n, buf, e, relaxed)
    decreases |buf| - p
  {
    hide Run;
    var next := Step(m, buf, p, relaxed);
    BlankMoves(buf[p], relaxed);
    hide Trans;
    ActOne(m, MarkHere, buf, p);
    assert Act(m, MarkHere, buf, p) == m.(mark := p);
    hide Act;
    if buf[p] == ' ' || buf[p] == '\t' {
      v, q, eol, e, n := ContentTaken(next, buf, p + 1, relaxed);
      assert buf[p..v] == [buf[p]] + buf[p + 1..v];
    } else {
      v := p;
      q, eol, e, n := PlainTaken(m, buf, p, relaxed);
    }
  }

  /** Behind the blanks. */
  lemma PlainTaken(m: Machine, buf: string, p: nat, relaxed: bool) returns (q: nat, eol: string, e: nat, n: Machine)
    requires Accepts(m, buf, p, relaxed) && m.cs == 15 && p < |buf| && buf[p] != ' ' && buf[p] != '\t'
    ensures p <= q <= e <= |buf| && GoodValue(buf[p..q]) && IsEol(eol) && buf[q..e] == eol
    ensures q < |buf| && n == Act(m.(mark := p), OnField, buf, q).(cs := 13)
    ensures Run(m, buf, p, relaxed) == Run(n, buf, e, relaxed) && Accepts(n, buf, e, relaxed)
  {
    hide Run;
    hide Trans;
    hide Act;
    n := m.(cs := 16, mark := p);
    FifteenLikeSixteen(m, n, buf, p, relaxed);
    q := ValueTaken(n, buf, p, relaxed);
    ActBlind(m.(mark := p), 16, OnField, buf, q);
    eol, e, n := EolTaken(n, OnField, buf, q, relaxed);
  }

  lemma ActBlind(m: Machine, cs: nat, a: Action, buf: string, p: nat)
    requires p < |buf|
    ensures Act(m.(cs := cs), a, buf, p) == Act(m, a, buf, p).(cs := cs)
  {
    hide MethodOf;
    hide SameStart;
    hide Put;
    hide Span;
  }

  lemma FifteenLikeSixteen(m: Machine, n: Machine, buf: string, p: nat, relaxed: bool)
    requires Accepts(m, buf, p, relaxed) && m.cs == 15 && n == m.(cs := 16, mark := p) && p < |buf| && buf[p] != ' ' && buf[p] != '\t'
    ensures Run(m, buf, p, relaxed) == Run(n, buf, p, relaxed) && Accepts(n, buf, p, relaxed)
  {
    hide Run;
    var rest := Trans(16, Ord(buf[p]), relaxed);
    assert var go := Trans(15, Ord(buf[p]), relaxed); go.Go? ==> rest.Go? && go.to == rest.to && go.actions == [MarkHere] + rest.actions;
    hide Trans;
    if rest.Go? {
      ActMore(m, MarkHere, rest.actions, buf, p);
      ActsBlind(m.(mark := p), 16, rest.actions, buf, p);
    }
    Alike(m, n, buf, p, relaxed);
  }

  /** One header line. */
  lemma FieldTaken(m: Machine, buf: string, p: nat, relaxed: bool) returns (f: Field, e: nat, n: Machine)
    requires Accepts(m, buf, p, relaxed) && m.cs == 13
    requires p < |buf| && buf[p] != '\n' && (buf[p] == '\r' ==> p + 1 < |buf| && buf[p + 1] != '\n')
    ensures GoodField(f) && p < e <= |buf| && buf[p..e] == FieldText(f)
    ensures n.cs == 13 && n.error == m.error && n.req == m.req.(headers := Put(m.req.headers, f.key, f.value))
    ensures Run(m, buf, p, relaxed) == Run(n, buf, e, relaxed) && Accepts(n, buf, e, relaxed)
  {
    hide Run;
    hide Put;
    var n0 := Step(m, buf, p, relaxed);
    ActOne(m, MarkField, buf, p);
    assert n0 == m.(fieldStart := p, cs := if buf[p] == '\r' then 18 else 14);
    assert FieldFirst(Ord(buf[p])) || buf[p] == '\r';
    hide Trans;
    var k, n1 := KeyTaken(n0, buf, p + 1, relaxed);
    var v, q, eol;
    v, q, eol, e, n := ContentTaken(n1, buf, k + 1, relaxed);
    f := Field(buf[p..k], buf[k + 1..v], buf[v..q], eol);
    assert n1 == n0.(fieldLen := k - p, cs := 15);
    assert Span(buf, p, p + (k - p)) == f.key && Span(buf, v, q) == f.value;
    LineIs(buf, p, k, v, q, e);
  }

  lemma LineIs(buf: string, p: nat, k: nat, v: nat, q: nat, e: nat)
    requires p < k < v <= q <= e <= |buf| && buf[k] == ':'
    ensures buf[p..e] == buf[p..k] + ":" + buf[k + 1..v] + buf[v..q] + buf[q..e]
  {
    Join3(buf, p, k, k + 1);
    Join3(buf, p, k + 1, v);
    Join3(buf, p, v, q);
    Join3(buf, p, q, e);
  }

  lemma Join3(buf: string, a: nat, b: nat, c: nat)
    requires a <= b <= c <= |buf|
    ensures buf[a..c] == buf[a..b] + buf[b..c]
  {
  }

  /** The empty line that ends the head. */
  lemma EndTaken(m: Machine, buf: string, p: nat, relaxed: bool) returns (end: string, e: nat, n: Machine)
    requires Accepts(m, buf, p, relaxed) && m.cs == 13
    requires p < |buf| && (buf[p] == '\n' || (buf[p] == '\r' && p + 1 < |buf| && buf[p + 1] == '\n'))
    ensures IsEol(end) && e == p + |end| <= |buf| && buf[p..e] == end
    ensures Run(m, buf, p, relaxed) == Stop(n, e, false) && n.error == m.error && n.req == m.req && n.bodyStart == e
  {
    hide Run;
    n := Step(m, buf, p, relaxed);
    if buf[p] == '\n' {
      ActTwo(m, MarkField, OnDone, buf, p);
      end, e := "\n", p + 1;
    } else {
      ActOne(m, MarkField, buf, p);
      var m1 := n;
      n := Step(m1, buf, p + 1, relaxed);
      ActOne(m1, OnDone, buf, p + 1);
      end, e := "\r\n", p + 2;
    }
  }

  lemma {:induction false} FieldsTaken(m: Machine, buf: string, p: nat, relaxed: bool)
    returns (fields: seq<Field>, end: string, e: nat, n: Machine)
    requires Accepts(m, buf, p, relaxed) && m.cs == 13
    ensures (forall f <- fields :: GoodField(f)) && IsEol(end) && p <= e <= |buf| && buf[p..e] == FieldsText(fields) + end
    ensures Run(m, buf, p, relaxed) == Stop(n, e, false) && n.error == m.error && n.bodyStart == e
    ensures n.req == m.req.(headers := PutFields(m.req.headers, fields))
    decreases |buf| - p
  {
    hide Run;
    hide Put;
    hide Trans;
    hide FieldText;
    var next := Step(m, buf, p, relaxed);
    if buf[p] == '\n' || (buf[p] == '\r' && p + 1 < |buf| && buf[p + 1] == '\n') {
      end, e, n := EndTaken(m, buf, p, relaxed);
      fields := [];
    } else {
      if buf[p] == '\r' {
        Eighteen(m, buf, p, relaxed);
      }
      var f, e1, n1 := FieldTaken(m, buf, p, relaxed);
      var rest;
      rest, end, e, n := FieldsTaken(n1, buf, e1, relaxed);
      fields := [f] + rest;
      Join3(buf, p, e1, e);
      assert FieldsText(fields) == FieldText(f) + FieldsText(rest);
    }
  }

  lemma Eighteen(m: Machine, buf: string, p: nat, relaxed: bool)
    requires Accepts(m, buf, p, relaxed) && m.cs == 13 && p < |buf| && buf[p] == '\r'
    ensures p + 1 < |buf|
  {
    hide Run;
    var next := Step(m, buf, p, relaxed);
    var next1 := Step(next, buf, p + 1, relaxed);
  }

  // ---------- all of it ----------

  /** An accepting run, on any input: what it has read is a head of the grammar, the request
      is the one this head says, the body begins behind it, and there is an error exactly
      when the text begins with no method's name. */
  lemma Accepted(buf: string, relaxed: bool) returns (h: Head)
    requires Run(NewMachine(), buf, 0, relaxed).m.cs == FINAL
    ensures GoodHead(h, relaxed)
    ensures var s, verb := Run(NewMachine(), buf, 0, relaxed), MethodOf(buf, 0);
            !s.outside && s.m.bodyStart == s.p && buf[..s.p] == HeadText(h) &&
            s.m.error == (if verb == INVALID_METHOD then 1000 else 0) &&
            s.m.req == Meant(h, verb)
  {
    hide Run;
    hide Trans;
    hide MethodOf;
    hide GoodParts;
    var m0 := NewMachine();
    var q, m1 := VerbTaken(m0, buf, relaxed);
    var t, e, m2 := TargetTaken(m1, buf, q + 1, relaxed);
    var version, eol, e', m3 := VersionTaken(m2, buf, e + 1, relaxed);
    var fields, end, last, m4 := FieldsTaken(m3, buf, e', relaxed);
    h := t.(verb := buf[..q], version := version, eol := eol, fields := fields, end := end);
    HeadIs(buf, q, e, e', last, h);
    assert buf[0..] == buf;
    SameParts(t, h, relaxed);
  }

  lemma SameParts(t: Head, h: Head, relaxed: bool)
    requires GoodParts(t, relaxed) && h == t.(verb := h.verb, version := h.version, eol := h.eol, fields := h.fields, end := h.end)
    ensures GoodParts(h, relaxed)
  {
  }

  lemma VerbTaken(m: Machine, buf: string, relaxed: bool) returns (q: nat, n: Machine)
    requires Accepts(m, buf, 0, relaxed) && m.cs == START
    ensures q < |buf| && VerbText(buf[..q]) && buf[q] == ' ' && n == Act(m.(mark := 0), OnMethod, buf, q).(cs := 3)
    ensures Run(m, buf, 0, relaxed) == Run(n, buf, q + 1, relaxed) && Accepts(n, buf, q + 1, relaxed)
  {
    hide Run;
    var next := Step(m, buf, 0, relaxed);
    ActOne(m, MarkHere, buf, 0);
    assert buf[..1] == [buf[0]];
    q, n := VerbTail(next, buf, 1, relaxed);
  }

  lemma HeadIs(buf: string, q: nat, e: nat, e': nat, last: nat, h: Head)
    requires q < e < e' <= last <= |buf| && buf[q] == buf[e] == ' '
    requires h.verb == buf[..q] && TargetText(h) == buf[q + 1..e] && h.version + h.eol == buf[e + 1..e']
    requires FieldsText(h.fields) + h.end == buf[e'..last]
    ensures buf[..last] == HeadText(h)
  {
    hide TargetText;
    hide FieldsText;
    assert buf[..last] == buf[..q] + [buf[q]] + buf[q + 1..e] + [buf[e]] + buf[e + 1..e'] + buf[e'..last];
    Groups(h.verb + " " + TargetText(h) + " ", h.version, h.eol, FieldsText(h.fields), h.end);
  }
}

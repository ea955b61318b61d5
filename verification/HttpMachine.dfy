/** The request machine of http11_parser.rl.cc, but for targets that begin with a letter or
    with two slashes: states 1 to 33, 175 to 193 and the final state 348. Every transition
    to another state leads Outside, which no run modelled here follows. */
module HttpMachine {
  import opened Codec
  import opened HttpSpec

  const START := 1
  const FINAL := 348

  // ---------- characters ----------

  /** The value of *p, a signed char. */
  function Ord(c: char): (n: int)
    ensures n < 128
  {
    if c as int < 128 then c as int else c as int % 128 - 128
  }

  /** _widec: ^, { and } are told apart by uri_relaxed. */
  function Wide(n: int, relaxed: bool): int
  {
    if n == 94 || n == 123 || n == 125 then (if relaxed then n + 512 else n + 256) else n
  }

  predicate Hex(n: int)
  {
    48 <= n <= 57 || 65 <= n <= 70 || 97 <= n <= 102
  }

  predicate MethodChar(n: int)
  {
    48 <= n <= 57 || 65 <= n <= 90
  }

  /** What states 20, 21, 29 and 30 take as it is. */
  predicate UriChar(w: int)
  {
    w == 33 || w == 61 || w == 95 || w == 126 || w == 606 || w == 635 || w == 637 ||
    w <= -1 || (36 <= w <= 59 && w != 37) || 63 <= w <= 90 || 97 <= w <= 122
  }

  /** In a path a question mark ends it. */
  predicate PathChar(w: int)
  {
    UriChar(w) && w != 63
  }

  /** What begins a header field in state 13, */
  predicate FieldFirst(n: int)
  {
    n == 33 || n == 124 || n == 126 || 1 <= n <= 8 || (11 <= n <= 31 && n != 13) || 35 <= n <= 39 ||
    42 <= n <= 43 || 45 <= n <= 46 || 48 <= n <= 57 || 65 <= n <= 90 || 94 <= n <= 122
  }

  /** and what follows it in state 14. */
  predicate FieldRest(n: int)
  {
    n == 33 || n == 124 || n == 126 || 1 <= n <= 8 || 10 <= n <= 31 || 35 <= n <= 39 ||
    42 <= n <= 43 || 45 <= n <= 46 || 48 <= n <= 57 || 65 <= n <= 90 || 94 <= n <= 122
  }

  predicate ValueChar(n: int)
  {
    n != 0 && n != 10 && n != 13 && n != 127
  }

  // ---------- transitions ----------

  datatype Action =
    | MarkHere | OnMethod | OnPath | OnUri | OnFragment | MarkQuery | OnQuery | OnVersion
    | MarkField | FieldLength | OnField | OnDone

  datatype Move = Go(actions: seq<Action>, to: nat) | Fail | Outside

  function Trans(cs: nat, n: int, relaxed: bool): Move
  {
    if 2 <= cs <= 12 || 15 <= cs <= 17 then Trans2(cs, n, relaxed)
    else if 175 <= cs <= 193 then
      if n == 32 then Go([OnMethod], 3) else if MethodChar(n) && cs < 193 then Go([], cs + 1) else Fail
    else if cs == 1 then
      if n == 60 || n == 64 then Outside else if MethodChar(n) then Go([MarkHere], 2) else Fail
    else if cs == 13 then
      if n == 10 then Go([MarkField, OnDone], FINAL)
      else if n == 13 then Go([MarkField], 18)
      else if FieldFirst(n) then Go([MarkField], 14) else Fail
    else if cs == 14 || cs == FINAL || cs == 18 then
      if n == 58 then Go([FieldLength], 15)
      else if n == 10 && cs == 18 then Go([OnDone], FINAL)
      else if FieldRest(n) then Go([], 14) else Fail
    else Trans3(cs, n, Wide(n, relaxed))
  }

  /** The request line around the target, and header values. */
  function Trans2(cs: nat, n: int, relaxed: bool): Move
  {
    match cs
    case 2 => if n == 32 then Go([OnMethod], 3) else if MethodChar(n) then Go([], 175) else Fail
    case 3 =>
      var w := Wide(n, relaxed);
      if w == 32 then Go([MarkHere, OnPath, OnUri], 4)
      else if w == 35 then Go([MarkHere, OnPath, OnUri], 20)
      else if w == 37 then Go([MarkHere], 24)
      else if w == 47 then Go([MarkHere], 33)
      else if w == 63 then Go([MarkHere, OnPath], 29)
      else if w == 33 || 36 <= w <= 57 || w == 59 || w == 61 || w == 64 || w == 95 || w == 126 || w == 606 || w == 635 || w == 637
      then Go([MarkHere], 19)
      else if 65 <= w <= 90 || 97 <= w <= 122 then Outside
      else Fail
    case 4 => if n == 72 then Go([MarkHere], 5) else Fail
    case 5 => if n == 84 then Go([], 6) else Fail
    case 6 => if n == 84 then Go([], 7) else Fail
    case 7 => if n == 80 then Go([], 8) else Fail
    case 8 => if n == 47 then Go([], 9) else Fail
    case 9 => if n == 49 then Go([], 10) else Fail
    case 10 => if n == 46 then Go([], 11) else Fail
    case 11 => if 48 <= n <= 49 then Go([], 12) else Fail
    case 12 => if n == 10 then Go([OnVersion], 13) else if n == 13 then Go([OnVersion], 17) else Fail
    case 15 =>
      if n == 0 || n == 127 then Fail
      else if n == 9 || n == 32 then Go([MarkHere], 15)
      else if n == 10 then Go([MarkHere, OnField], 13)
      else if n == 13 then Go([MarkHere, OnField], 17)
      else Go([MarkHere], 16)
    case 16 =>
      if n == 0 || n == 127 then Fail
      else if n == 10 then Go([OnField], 13)
      else if n == 13 then Go([OnField], 17)
      else Go([], 16)
    case 17 => if n == 10 then Go([], 13) else Fail
    case _ => Fail
  }

  /** The target. */
  function Trans3(cs: nat, n: int, w: int): Move
  {
    match cs
    case 19 =>
      if w == 32 then Go([OnPath, OnUri], 4)
      else if w == 35 then Go([OnPath, OnUri], 20)
      else if w == 37 then Go([], 24)
      else if w == 47 then Go([], 26)
      else if w == 63 then Go([OnPath], 29)
      else if w == 33 || 36 <= w <= 57 || w == 59 || w == 61 || 64 <= w <= 90 || w == 95 || 97 <= w <= 122 || w == 126 ||
              w == 606 || w == 635 || w == 637
      then Go([], 19) else Fail
    case 24 => if Hex(n) then Go([], 25) else Fail
    case 25 => if Hex(n) then Go([], 19) else Fail
    case 33 => if w == 47 then Outside else PathMove(w)
    case 26 => PathMove(w)
    case 27 => if Hex(n) then Go([], 28) else Fail
    case 28 => if Hex(n) then Go([], 26) else Fail
    case 29 =>
      if w == 32 then Go([MarkQuery, OnQuery, OnUri], 4)
      else if w == 35 then Go([MarkQuery, OnQuery, OnUri], 20)
      else if w == 37 then Go([MarkQuery], 31)
      else if UriChar(w) then Go([MarkQuery], 30) else Fail
    case 30 =>
      if w == 32 then Go([OnQuery, OnUri], 4)
      else if w == 35 then Go([OnQuery, OnUri], 20)
      else if w == 37 then Go([], 31)
      else if UriChar(w) then Go([], 30) else Fail
    case 31 => if Hex(n) then Go([], 32) else Fail
    case 32 => if Hex(n) then Go([], 30) else Fail
    case 20 =>
      if w == 32 then Go([MarkHere, OnFragment], 4)
      else if w == 37 then Go([MarkHere], 22)
      else if UriChar(w) then Go([MarkHere], 21) else Fail
    case 21 =>
      if w == 32 then Go([OnFragment], 4)
      else if w == 37 then Go([], 22)
      else if UriChar(w) then Go([], 21) else Fail
    case 22 => if Hex(n) then Go([], 23) else Fail
    case 23 => if Hex(n) then Go([], 21) else Fail
    case _ => Fail
  }

  function PathMove(w: int): Move
  {
    if w == 32 then Go([OnPath, OnUri], 4)
    else if w == 35 then Go([OnPath, OnUri], 20)
    else if w == 37 then Go([], 27)
    else if w == 63 then Go([OnPath], 29)
    else if PathChar(w) then Go([], 26) else Fail
  }

  // ---------- actions and callbacks ----------

  /** http_parser's fields, the request its callbacks fill, and m_error. */
  datatype Machine = Machine(cs: nat, mark: nat, fieldStart: nat, fieldLen: nat, queryStart: nat, bodyStart: nat,
                             req: Request, error: nat)

  /** std::string(at, length); the marks never run ahead. */
  function Span(buf: string, from: nat, to: nat): string
  {
    if from <= to <= |buf| then buf[from..to] else ""
  }

  /** strncmp(at, text, length) == 0, for text without NUL. */
  predicate SameStart(at: string, text: string)
  {
    if at == "" then true
    else text != "" && at[0] == text[0] && SameStart(at[1..], text[1..])
  }

  /** One action at position p. */
  function Act(m: Machine, a: Action, buf: string, p: nat): Machine
    requires p < |buf|
  {
    match a
    case MarkHere => m.(mark := p)
    case OnMethod =>
      var verb := MethodOf(buf[if m.mark <= |buf| then m.mark else |buf|..], 0);
      if verb == INVALID_METHOD then m.(error := 1000) else m.(req := m.req.(verb := verb))
    case OnPath => m.(req := m.req.(path := Span(buf, m.mark, p)))
    case OnUri => m
    case OnFragment => m.(req := m.req.(fragment := Span(buf, m.mark, p)))
    case MarkQuery => m.(queryStart := p)
    case OnQuery => m.(req := m.req.(query := Span(buf, m.queryStart, p)))
    case OnVersion =>
      var v := Span(buf, m.mark, p);
      if SameStart(v, "HTTP/1.1") then m.(req := m.req.(version := 0x11))
      else if SameStart(v, "HTTP/1.0") then m.(req := m.req.(version := 0x10))
      else m.(error := 1001)
    case MarkField => m.(fieldStart := p)
    case FieldLength => m.(fieldLen := if m.fieldStart <= p then p - m.fieldStart else 0)
    case OnField =>
      if m.fieldLen == 0 then m
      else m.(req := m.req.(headers := Put(m.req.headers, Span(buf, m.fieldStart, m.fieldStart + m.fieldLen), Span(buf, m.mark, p))))
    case OnDone => m.(bodyStart := p + 1)
  }

  function ActAll(m: Machine, actions: seq<Action>, buf: string, p: nat): Machine
    requires p < |buf|
    decreases |actions|
  {
    if actions == [] then m else ActAll(Act(m, actions[0], buf, p), actions[1..], buf, p)
  }

  /** Where a run stops: at the end, at a character that does not fit, behind the last
      line of the header, or where it leaves the states modelled here. */
  datatype Stop = Stop(m: Machine, p: nat, outside: bool)

  function Run(m: Machine, buf: string, p: nat, relaxed: bool): (s: Stop)
    requires p <= |buf|
    ensures p <= s.p <= |buf|
    decreases |buf| - p
  {
    if p == |buf| then Stop(m, p, false)
    else
      match Trans(m.cs, Ord(buf[p]), relaxed)
      case Fail => Stop(m.(cs := 0), p, false)
      case Outside => Stop(m, p, true)
      case Go(actions, to) =>
        var next := ActAll(m, actions, buf, p).(cs := to);
        if to == FINAL then Stop(next, p + 1, false) else Run(next, buf, p + 1, relaxed)
  }

  /** What the assertions at the end of http_parser_execute ask of the marks. */
  predicate MarksInside(m: Machine, len: nat)
  {
    m.mark < len && m.fieldStart < len && m.fieldLen <= len && m.bodyStart <= len
  }

  lemma {:induction false} ActsInside(m: Machine, actions: seq<Action>, buf: string, p: nat)
    requires p < |buf| && MarksInside(m, |buf|)
    ensures MarksInside(ActAll(m, actions, buf, p), |buf|)
    decreases |actions|
  {
    if actions != [] {
      ActsInside(Act(m, actions[0], buf, p), actions[1..], buf, p);
    }
  }

  /** They hold after every run, whatever the input; the run ends where it leaves the
      states modelled here. */
  lemma {:induction false} RunInside(m: Machine, buf: string, p: nat, relaxed: bool)
    requires p <= |buf| && MarksInside(m, |buf|)
    ensures MarksInside(Run(m, buf, p, relaxed).m, |buf|)
    decreases |buf| - p
  {
    if p < |buf| {
      match Trans(m.cs, Ord(buf[p]), relaxed)
      case Fail =>
      case Outside =>
      case Go(actions, to) =>
        ActsInside(m, actions, buf, p);
        if to != FINAL {
          RunInside(ActAll(m, actions, buf, p).(cs := to), buf, p + 1, relaxed);
        }
    }
  }
}

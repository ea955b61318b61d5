/** HttpRequest and HttpRequestParser as objects, proved against HttpSpec and HttpMachine. */
module Http {
  import opened Codec
  import opened HttpSpec
  import opened HttpMachine
  import opened HttpRuns
  import opened HttpRoundTrip

  class HttpRequest {
    var verb: nat
    var version: nat
    var close: bool
    var path: string
    var query: string
    var fragment: string
    var body: string
    var headers: seq<Header>    // std::map with CaseInsensitiveLess

    constructor ()
      ensures View() == Request(1, 0x11, true, "/", "", "", "", [])
    {
      verb, version, close, path := 1, 0x11, true, "/";
      query, fragment, body, headers := "", "", "", [];
    }

    function View(): Request
      reads this
    {
      Request(verb, version, close, path, query, fragment, body, headers)
    }

    method SetHeader(key: string, value: string)
      requires Ordered(headers)
      modifies this`headers
      ensures headers == Put(old(headers), key, value) && Ordered(headers)
      ensures forall k :: Get(headers, k) == if SameKey(key, k) then Some(value) else Get(old(headers), k)
    {
      forall k ensures Get(Put(headers, key, value), k) == if SameKey(key, k) then Some(value) else Get(headers, k) {
        GetPut(headers, key, value, k);
      }
      PutOrdered(headers, key, value);
      headers := Put(headers, key, value);
    }

    /** dump */
    method Dump() returns (os: string)
      ensures os == HttpSpec.Dump(View())
    {
      os := MethodName(verb) + " " + path + (if query == "" then "" else "?") + query +
            (if fragment == "" then "" else "#") + fragment +
            " HTTP/" + Decimal(version / 16) + "." + Decimal(version % 16) + CRLF;
      FirstLine(View(), os);
      ghost var first := os;
      os := os + "connection: " + CloseText(close) + CRLF;
      os := DumpHeaders(os);
      ghost var headed := os;
      if body != "" {
        os := os + "content-length: " + Decimal(|body|) + CRLF + CRLF + body;
      } else {
        os := os + CRLF;
      }
      Whole(View(), first, headed, os);
    }

    /** Its loop. */
    method DumpHeaders(begin: string) returns (os: string)
      ensures os == begin + Lines(headers)
    {
      os := begin;
      var i := 0;
      assert headers[0..] == headers;
      while i < |headers|
        invariant 0 <= i <= |headers| && os + Lines(headers[i..]) == begin + Lines(headers)
      {
        var h := headers[i];
        NextLine(os, headers, i);
        i := i + 1;
        if SameKey(h.key, "connection") {
          continue;
        }
        LineText(os, h);
        os := os + h.key + ":" + h.value + CRLF;
      }
      assert headers[i..] == [] && os + "" == os;
    }
  }

  class HttpRequestParser {
    var cs: nat
    var mark: nat
    var fieldStart: nat
    var fieldLen: nat
    var queryStart: nat
    var bodyStart: nat
    var nread: nat
    const uriRelaxed: bool    // nothing sets it
    const data: HttpRequest
    var error: nat

    constructor (uriRelaxed: bool)
      ensures View() == NewMachine() && this.uriRelaxed == uriRelaxed && fresh(data)
    {
      this.uriRelaxed := uriRelaxed;
      data := new HttpRequest();
      cs, mark, fieldStart, fieldLen, queryStart, bodyStart, nread, error := START, 0, 0, 0, 0, 0, 0, 0;
    }

    function View(): Machine
      reads this, data
    {
      Machine(cs, mark, fieldStart, fieldLen, queryStart, bodyStart, data.View(), error)
    }

    // ---------- callbacks ----------

    method OnRequestMethod(at: string)
      modifies this`error, data`verb
      ensures var m := MethodOf(at, 0);
              if m == INVALID_METHOD then error == 1000 && data.verb == old(data.verb) else error == old(error) && data.verb == m
    {
      var m := MethodOf(at, 0);
      if m == INVALID_METHOD {
        error := 1000;
        return;
      }
      data.verb := m;
    }

    method OnRequestVersion(at: string)
      modifies this`error, data`version
      ensures if SameStart(at, "HTTP/1.1") then data.version == 0x11 && error == old(error)
              else if SameStart(at, "HTTP/1.0") then data.version == 0x10 && error == old(error)
              else data.version == old(data.version) && error == 1001
    {
      var v;
      if SameStart(at, "HTTP/1.1") {
        v := 0x11;
      } else if SameStart(at, "HTTP/1.0") {
        v := 0x10;
      } else {
        error := 1001;
        return;
      }
      data.version := v;
    }

    method OnRequestHttpField(field: string, flen: nat, value: string)
      modifies data`headers
      ensures data.headers == if flen == 0 then old(data.headers) else Put(old(data.headers), field, value)
    {
      if flen == 0 {
        return;
      }
      data.headers := Put(data.headers, field, value);
    }

    // ---------- http_parser_execute ----------

    /** One action of a transition. */
    method Do(a: Action, buf: string, p: nat)
      requires p < |buf| && MarksInside(View(), |buf|)
      modifies this`mark, this`fieldStart, this`fieldLen, this`queryStart, this`bodyStart, this`error, data
      ensures View() == Act(old(View()), a, buf, p)
    {
      hide MethodOf;
      hide Span;
      hide SameStart;
      hide Put;
      match a
      case MarkHere => mark := p;
      case OnMethod => OnRequestMethod(buf[mark..]);
      case OnPath => data.path := Span(buf, mark, p);
      case OnUri =>
      case OnFragment => data.fragment := Span(buf, mark, p);
      case MarkQuery => queryStart := p;
      case OnQuery => data.query := Span(buf, queryStart, p);
      case OnVersion => OnRequestVersion(Span(buf, mark, p));
      case MarkField => fieldStart := p;
      case FieldLength => fieldLen := if fieldStart <= p then p - fieldStart else 0;
      case OnField => OnRequestHttpField(Span(buf, fieldStart, fieldStart + fieldLen), fieldLen, Span(buf, mark, p));
      case OnDone => bodyStart := p + 1;
    }

    method DoAll(actions: seq<Action>, buf: string, p: nat)
      requires p < |buf| && MarksInside(View(), |buf|)
      modifies this`mark, this`fieldStart, this`fieldLen, this`queryStart, this`bodyStart, this`error, data
      ensures View() == ActAll(old(View()), actions, buf, p) && MarksInside(View(), |buf|)
    {
      hide ActAll;
      hide Act;
      hide MarksInside;
      var k := 0;
      ghost var m := View();
      assert actions[0..] == actions;
      while k < |actions|
        invariant 0 <= k <= |actions| && MarksInside(View(), |buf|)
        invariant ActAll(View(), actions[k..], buf, p) == ActAll(m, actions, buf, p)
      {
        OneActed(View(), actions, k, buf, p);
        Do(actions[k], buf, p);
        k := k + 1;
      }
      AllActed(View(), actions, buf, p);
    }

    /** One character. */
    method Turn(buf: string, p: nat, ghost s: Stop) returns (done: bool, q: nat, inside: bool)
      requires p < |buf| && MarksInside(View(), |buf|)
      requires s == Run(View(), buf, p, uriRelaxed)
      modifies this`cs, this`mark, this`fieldStart, this`fieldLen, this`queryStart, this`bodyStart, this`error, data
      ensures p <= q <= |buf| && (!done ==> q == p + 1 && inside) && MarksInside(View(), |buf|)
      ensures if done then Stop(View(), q, !inside) == s else Run(View(), buf, q, uriRelaxed) == s
    {
      hide Trans;
      hide Act;
      match Trans(cs, Ord(buf[p]), uriRelaxed) {
        case Fail =>
          cs := 0;
          return true, p, true;
        case Outside =>
          return true, p, false;
        case Go(actions, to) =>
          DoAll(actions, buf, p);
          cs := to;
          return to == FINAL, p + 1, true;
      }
    }

    /** http_parser_execute, whose assertions are those of MarksInside and nread <= len. It
        is followed up to where it leaves the states that are modelled, if it does. */
    method HttpParserExecute(buf: string) returns (n: nat, inside: bool)
      requires |buf| < 0x8000_0000 && bodyStart <= |buf|
      modifies this, data
      ensures buf == "" ==> n == 0 && inside && View() == old(View())
      ensures buf != "" ==>
                Stop(View(), n, !inside) == Run(old(View()).(mark := 0, fieldLen := 0, fieldStart := 0), buf, 0, uriRelaxed) &&
                n == nread <= |buf| && MarksInside(View(), |buf|)
    {
      hide Run;
      inside := true;
      if |buf| == 0 {
        return 0, true;
      }
      nread, mark, fieldLen, fieldStart := 0, 0, 0, 0;
      var p := 0;
      ghost var s := Run(View(), buf, 0, uriRelaxed);
      var done := false;
      while !done && p < |buf|
        invariant 0 <= p <= |buf| && nread == 0 && MarksInside(View(), |buf|)
        invariant if done then Stop(View(), p, !inside) == s else inside && Run(View(), buf, p, uriRelaxed) == s
        decreases !done, |buf| - p
      {
        done, p, inside := Turn(buf, p, s);
      }
      RunAtEnd(View(), buf, uriRelaxed);
      nread := nread + p;
      n := nread;
    }

    /** execute: the bytes that are left are moved to the front of the buffer. */
    method Execute(buffer: array<char>, len: nat) returns (offset: nat, inside: bool)
      requires len <= buffer.Length && len < 0x8000_0000 && bodyStart <= len
      modifies this, data, buffer
      ensures len == 0 ==> offset == 0 && inside && View() == old(View())
      ensures len > 0 ==>
                Stop(View(), offset, !inside) ==
                Run(old(View()).(mark := 0, fieldLen := 0, fieldStart := 0), old(buffer[..len]), 0, uriRelaxed)
      ensures offset <= len && buffer[..] == old(buffer[offset..len]) + old(buffer[len - offset..])
    {
      hide Run;
      offset, inside := HttpParserExecute(buffer[..len]);
      forall i | 0 <= i < len - offset {
        buffer[i] := buffer[i + offset];
      }
    }

    /** isFinished, and hasError */
    method IsFinished() returns (r: int)
      ensures r == if cs == 0 then -1 else if cs >= FINAL then 1 else 0
    {
      if cs == 0 {
        return -1;
      } else if cs >= FINAL {
        return 1;
      }
      return 0;
    }

    method HasError() returns (r: bool)
      ensures r <==> error != 0 || cs == 0
    {
      r := error != 0 || cs == 0;
    }

    method GetContentLength() returns (r: Cast)
      ensures r == ContentLength(data.headers)
    {
      r := ContentLength(data.headers);
    }
  }

  lemma OneActed(m: Machine, actions: seq<Action>, k: nat, buf: string, p: nat)
    requires p < |buf| && k < |actions| && MarksInside(m, |buf|)
    ensures MarksInside(Act(m, actions[k], buf, p), |buf|)
    ensures ActAll(m, actions[k..], buf, p) == ActAll(Act(m, actions[k], buf, p), actions[k + 1..], buf, p)
  {
    assert actions[k..][1..] == actions[k + 1..];
    assert [actions[k]][1..] == [];
    ActsInside(m, [actions[k]], buf, p);
  }

  lemma AllActed(m: Machine, actions: seq<Action>, buf: string, p: nat)
    requires p < |buf|
    ensures ActAll(m, actions[|actions|..], buf, p) == m
  {
  }

  lemma RunAtEnd(m: Machine, buf: string, relaxed: bool)
    ensures Run(m, buf, |buf|, relaxed) == Stop(m, |buf|, false)
  {
  }

  lemma ParsedBack(r: Request, relaxed: bool)
    requires WellFormed(r, relaxed) && |HttpSpec.Dump(r)| < 0x8000_0000
    ensures |HttpSpec.Dump(r)| > 0
    ensures var s := Run(NewMachine(), HttpSpec.Dump(r), 0, relaxed);
            s.m.cs == FINAL && s.m.error == 0 && !s.outside && HttpSpec.Dump(r)[s.p..] == r.body &&
            s.m.req.verb == r.verb && s.m.req.path == r.path && s.m.req.query == r.query && s.m.req.fragment == r.fragment &&
            s.m.req.version == r.version && s.m.req.headers == Found(r) &&
            ContentLength(s.m.req.headers) == if r.body != "" then Number(|r.body|) else ContentLength(r.headers)
  {
    hide Run;
    hide HttpSpec.Dump;
    hide Found;
    hide ContentLength;
    RoundTrip(r, relaxed);
    PowersOf2();
    RunAtEnd(NewMachine(), "", relaxed);
    assert |r.body| <= |HttpSpec.Dump(r)|;
    FoundLength(r);
  }

  /** Printing a request, parsing the text, and what is left in the buffer. */
  method PrintAndParse(request: HttpRequest, uriRelaxed: bool)
    returns (parser: HttpRequestParser, finished: int, failed: bool, left: string, length: Cast)
    requires WellFormed(request.View(), uriRelaxed) && |Dump(request.View())| < 0x8000_0000
    ensures fresh(parser) && fresh(parser.data)
    ensures finished == 1 && !failed && left == request.body
    ensures length == if request.body != "" then Number(|request.body|) else ContentLength(request.headers)
    ensures parser.data.verb == request.verb && parser.data.version == request.version
    ensures parser.data.path == request.path && parser.data.query == request.query && parser.data.fragment == request.fragment
    ensures parser.data.headers == Found(request.View())
  {
    hide Run;
    hide HttpSpec.Dump;
    hide WellFormed;
    hide Found;
    hide ContentLength;
    ghost var r := request.View();
    ParsedBack(r, uriRelaxed);
    var text := request.Dump();
    var buffer := new char[|text|](i requires 0 <= i < |text| => text[i]);
    assert buffer[..|text|] == text;
    parser := new HttpRequestParser(uriRelaxed);
    ghost var s := Run(NewMachine(), text, 0, uriRelaxed);
    var n, inside := parser.Execute(buffer, |text|);
    assert parser.View() == s.m;
    left := buffer[..|text| - n];
    finished := parser.IsFinished();
    failed := parser.HasError();
    length := parser.GetContentLength();
  }

  lemma FirstLine(r: Request, os: string)
    requires os == MethodName(r.verb) + " " + r.path + (if r.query == "" then "" else "?") + r.query +
                   (if r.fragment == "" then "" else "#") + r.fragment +
                   " HTTP/" + Decimal(r.version / 16) + "." + Decimal(r.version % 16) + CRLF
    ensures os == MethodName(r.verb) + " " + Target(r) + VersionText(r.version)
  {
    hide MethodName;
    hide Decimal;
  }

  lemma NextLine(os: string, h: seq<Header>, i: nat)
    requires i < |h|
    ensures os + Lines(h[i..]) ==
            (if SameKey(h[i].key, "connection") then os else os + Line(h[i])) + Lines(h[i + 1..])
  {
    hide SameKey;
    hide Line;
    assert h[i..][1..] == h[i + 1..];
    var first := if SameKey(h[i].key, "connection") then "" else Line(h[i]);
    assert Lines(h[i..]) == first + Lines(h[i + 1..]);
    Regroup(os, first, Lines(h[i + 1..]));
  }

  lemma Regroup(a: string, b: string, c: string)
    ensures a + (b + c) == a + b + c && a + "" == a
  {
  }

  lemma LineText(os: string, h: Header)
    ensures os + h.key + ":" + h.value + CRLF == os + Line(h)
  {
    Regroup(os + h.key + ":", h.value, CRLF);
    Regroup(os + h.key, ":", h.value + CRLF);
    Regroup(os, h.key, ":" + (h.value + CRLF));
    assert Line(h) == h.key + (":" + (h.value + CRLF));
  }

  lemma Whole(r: Request, first: string, headed: string, os: string)
    requires first == MethodName(r.verb) + " " + Target(r) + VersionText(r.version)
    requires headed == first + "connection: " + CloseText(r.close) + CRLF + Lines(r.headers)
    requires os == if r.body != "" then headed + "content-length: " + Decimal(|r.body|) + CRLF + CRLF + r.body else headed + CRLF
    ensures os == HttpSpec.Dump(r)
  {
    hide MethodName;
    hide Decimal;
    hide Target;
    hide VersionText;
    hide CloseText;
    hide Lines;
  }
}

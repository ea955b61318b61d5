/** LogFormatter::init: how a pattern is cut into spans, and the items they become. */
module LogFormatter {
  import opened Codec

  // ---------- std::string ----------

  /** std::string::npos; a pattern is shorter than that. */
  const NPOS: int := 0xFFFF_FFFF_FFFF_FFFF

  /** size_t arithmetic. */
  function Wrap(n: int): int { n % 0x1_0000_0000_0000_0000 }

  function Find(s: string, c: char, from: int): (i: int)
    requires 0 <= from && |s| < NPOS
    ensures i == NPOS || (from <= i < |s| && s[i] == c)
    ensures forall j :: from <= j < |s| && (i == NPOS || j < i) ==> s[j] != c
    decreases |s| - from
  {
    if from >= |s| then NPOS else if s[from] == c then from else Find(s, c, from + 1)
  }

  /** substr, which stops at the end of the string. */
  function Substr(s: string, from: nat, len: int): string
    requires from <= |s| && 0 <= len
  {
    if len <= |s| - from then s[from..from + len] else s[from..]
  }

  predicate IsAlpha(c: char)
  {
    'a' <= c <= 'z' || 'A' <= c <= 'Z'
  }

  // ---------- spans ----------

  datatype Span =
    | Literal(from: nat, to: nat)     // copied as it stands
    | Percent(from: nat, to: nat)     // %%
    | Directive(from: nat, to: nat)   // %x, %x{...}, or a % at the end
    | Broken(from: nat, to: nat)      // %x{ without a }

  /** Up to the next % from j on, or to the end. */
  predicate UpToPercent(p: string, j: nat, to: nat)
  {
    j <= to <= |p| && (to < |p| ==> p[to] == '%') && forall k :: j <= k < to ==> p[k] != '%'
  }

  /** A % that is followed by a letter or nothing. */
  predicate Opens(p: string, i: nat)
  {
    i < |p| && p[i] == '%' && (i + 1 < |p| ==> IsAlpha(p[i + 1]))
  }

  predicate Braced(p: string, i: nat)
  {
    i + 2 < |p| && p[i + 2] == '{'
  }

  /** What each kind of span looks like in the pattern. */
  predicate Shaped(p: string, s: Span)
  {
    s.from < s.to <= |p| &&
    match s
    case Literal(i, to) =>
      if p[i] != '%' then UpToPercent(p, i, to)
      else i + 1 < |p| && p[i + 1] != '%' && !IsAlpha(p[i + 1]) && UpToPercent(p, i + 1, to)
    case Percent(i, to) =>
      to == i + 2 && p[i] == p[i + 1] == '%'
    case Directive(i, to) =>
      Opens(p, i) &&
      if Braced(p, i) then i + 3 < to && p[to - 1] == '}' && forall k :: i + 3 <= k < to - 1 ==> p[k] != '}'
      else to == if i + 1 < |p| then i + 2 else i + 1
    case Broken(i, to) =>
      Opens(p, i) && Braced(p, i) && (forall k :: i + 3 <= k < |p| ==> p[k] != '}') && UpToPercent(p, i + 1, to)
  }

  /** Spans that lie end to end from `from` to `to`. */
  predicate Tiles(p: string, spans: seq<Span>, from: nat, to: nat)
    decreases |spans|
  {
    if spans == [] then from == to
    else spans[0].from == from && Shaped(p, spans[0]) && Tiles(p, spans[1..], spans[0].to, to)
  }

  /** There is only one way to cut a pattern. */
  lemma ShapeUnique(p: string, a: Span, b: Span)
    requires Shaped(p, a) && Shaped(p, b) && a.from == b.from
    ensures a == b
  {
  }

  lemma {:induction false} TilesUnique(p: string, a: seq<Span>, b: seq<Span>, from: nat)
    requires Tiles(p, a, from, |p|) && Tiles(p, b, from, |p|)
    ensures a == b
    decreases |a|
  {
    if a != [] && b != [] {
      ShapeUnique(p, a[0], b[0]);
      TilesUnique(p, a[1..], b[1..], a[0].to);
    }
  }

  function Raw(p: string, spans: seq<Span>): string
    requires forall s <- spans :: s.from <= s.to <= |p|
  {
    if spans == [] then "" else p[spans[0].from..spans[0].to] + Raw(p, spans[1..])
  }

  /** Together the spans are the pattern: nothing is skipped or read twice. */
  lemma {:induction false} TilesCover(p: string, spans: seq<Span>, from: nat, to: nat)
    requires Tiles(p, spans, from, to) && to <= |p|
    ensures from <= to && (forall s <- spans :: s.from <= s.to <= |p|) && Raw(p, spans) == p[from..to]
    decreases |spans|
  {
    if spans != [] {
      var s := spans[0];
      assert s.from == from && s.from <= s.to <= |p|;
      hide Shaped;
      TilesCover(p, spans[1..], s.to, to);
      assert p[from..to] == p[from..s.to] + p[s.to..to];
    }
  }

  // ---------- what the spans become ----------

  /** An entry of vec: literal text (type 0), or a directive with its braces' content. */
  datatype Piece = Text(text: string) | Field(name: string, fmt: string)

  /** vec, and the text gathered in nstr that is not in it yet. */
  datatype Emitted = Emitted(vec: seq<Piece>, pending: string, error: bool)
  {
    function Flush(): seq<Piece>
    {
      if pending == "" then vec else vec + [Text(pending)]
    }
  }

  function FieldOf(p: string, i: nat, to: nat): Piece
    requires Shaped(p, Directive(i, to))
  {
    Field(if i + 1 < |p| then [p[i + 1]] else "", if Braced(p, i) then p[i + 3..to - 1] else "")
  }

  function Emit(p: string, e: Emitted, s: Span): Emitted
    requires Shaped(p, s)
  {
    match s
    case Literal(i, to) => e.(pending := e.pending + p[i..to])
    case Percent(_, _) => e.(pending := e.pending + "%")
    case Directive(i, to) =>
      Emitted(e.Flush() + [FieldOf(p, i, to)], "", e.error)
    case Broken(i, to) =>
      Emitted(e.vec + [Text(e.pending + p[i..to])], "", true)
  }

  predicate AllShaped(p: string, spans: seq<Span>)
  {
    forall s <- spans :: Shaped(p, s)
  }

  function EmitAll(p: string, spans: seq<Span>): Emitted
    requires AllShaped(p, spans)
  {
    if spans == [] then Emitted([], "", false)
    else Emit(p, EmitAll(p, spans[..|spans| - 1]), spans[|spans| - 1])
  }

  lemma EmitOneMore(p: string, spans: seq<Span>, s: Span)
    requires AllShaped(p, spans) && Shaped(p, s)
    ensures AllShaped(p, spans + [s]) && EmitAll(p, spans + [s]) == Emit(p, EmitAll(p, spans), s)
  {
    assert (spans + [s])[..|spans|] == spans;
  }

  /** Text is lost exactly when it comes last: it is scanned, but no item gets it. */
  lemma TrailingTextLost(p: string, spans: seq<Span>)
    requires AllShaped(p, spans)
    ensures |EmitAll(p, spans).pending| > 0 <==> spans != [] && (spans[|spans| - 1].Literal? || spans[|spans| - 1].Percent?)
    ensures spans != [] && (spans[|spans| - 1].Literal? || spans[|spans| - 1].Percent?) ==>
              EmitAll(p, spans).vec == EmitAll(p, spans[..|spans| - 1]).vec
  {
    if spans != [] {
      var n := |spans| - 1;
      var before, last := EmitAll(p, spans[..n]), spans[n];
      assert EmitAll(p, spans) == Emit(p, before, last);
      PendingAfter(p, before, last);
    }
  }

  lemma PendingAfter(p: string, e: Emitted, s: Span)
    requires Shaped(p, s)
    ensures |Emit(p, e, s).pending| == if s.Literal? then |e.pending| + (s.to - s.from) else if s.Percent? then |e.pending| + 1 else 0
    ensures s.Literal? || s.Percent? ==> Emit(p, e, s).vec == e.vec
  {
  }

  /** An error is recorded exactly when a brace is left open. */
  lemma {:induction false} ErrorIffBroken(p: string, spans: seq<Span>)
    requires AllShaped(p, spans)
    ensures EmitAll(p, spans).error <==> exists s <- spans :: s.Broken?
    decreases |spans|
  {
    if spans != [] {
      var n := |spans| - 1;
      ErrorIffBroken(p, spans[..n]);
      assert spans == spans[..n] + [spans[n]];
    }
  }

  lemma {:induction false} TileOneMore(p: string, spans: seq<Span>, from: nat, to: nat, s: Span)
    requires Tiles(p, spans, from, to) && Shaped(p, s) && s.from == to
    ensures Tiles(p, spans + [s], from, s.to)
    decreases |spans|
  {
    if spans == [] {
      assert (spans + [s])[1..] == [];
    } else {
      assert (spans + [s])[1..] == spans[1..] + [s];
      TileOneMore(p, spans[1..], spans[0].to, to, s);
    }
  }

  // ---------- items ----------

  /** The classes derived from FormatItem. */
  datatype Kind = Message | Level | Elapse | LogName | ThreadId | NewLine | DateTime | Filename | Line | Tab | FiberId | ThreadName

  datatype Item = StringItem(text: string) | FieldItem(kind: Kind, fmt: string)

  /** s_format_items */
  function KindOf(name: string): Option<Kind>
  {
    if name == "m" then Some(Message)
    else if name == "p" then Some(Level)
    else if name == "r" then Some(Elapse)
    else if name == "c" then Some(LogName)
    else if name == "t" then Some(ThreadId)
    else if name == "n" then Some(NewLine)
    else if name == "d" then Some(DateTime)
    else if name == "f" then Some(Filename)
    else if name == "l" then Some(Line)
    else if name == "T" then Some(Tab)
    else if name == "F" then Some(FiberId)
    else if name == "N" then Some(ThreadName)
    else None
  }

  /** A directive nobody knows becomes an error text. */
  function ItemOf(piece: Piece): Item
  {
    match piece
    case Text(text) => StringItem(text)
    case Field(name, fmt) =>
      var kind := KindOf(name);
      if kind.Some? then FieldItem(kind.value, fmt) else StringItem("<<error_format %" + name + ">>")
  }

  function Items(vec: seq<Piece>): (items: seq<Item>)
    ensures |items| == |vec|
  {
    seq(|vec|, i requires 0 <= i < |vec| => ItemOf(vec[i]))
  }

  // ---------- what the items are ----------

  /** The letter that stands for a kind of item. */
  function LetterOf(k: Kind): char
  {
    match k
    case Message => 'm'
    case Level => 'p'
    case Elapse => 'r'
    case LogName => 'c'
    case ThreadId => 't'
    case NewLine => 'n'
    case DateTime => 'd'
    case Filename => 'f'
    case Line => 'l'
    case Tab => 'T'
    case FiberId => 'F'
    case ThreadName => 'N'
  }

  /** Each kind is reached by one directive, that of its letter. */
  lemma OneLetterEach(k: Kind, name: string)
    ensures KindOf(name) == Some(k) <==> name == [LetterOf(k)]
  {
  }

  /** What one directive alone amounts to. */
  function LetterItem(c: char): Item
  {
    match c
    case 'm' => FieldItem(Message, "")
    case 'p' => FieldItem(Level, "")
    case 'r' => FieldItem(Elapse, "")
    case 'c' => FieldItem(LogName, "")
    case 't' => FieldItem(ThreadId, "")
    case 'n' => FieldItem(NewLine, "")
    case 'd' => FieldItem(DateTime, "")
    case 'f' => FieldItem(Filename, "")
    case 'l' => FieldItem(Line, "")
    case 'T' => FieldItem(Tab, "")
    case 'F' => FieldItem(FiberId, "")
    case 'N' => FieldItem(ThreadName, "")
    case _ => StringItem("<<error_format %" + [c] + ">>")
  }

  /** A % and a letter: one item, of the kind the letter stands for, or an error text. */
  lemma OneDirective(c: char, spans: seq<Span>)
    requires IsAlpha(c) && Tiles(['%', c], spans, 0, 2) && AllShaped(['%', c], spans)
    ensures !EmitAll(['%', c], spans).error
    ensures Items(EmitAll(['%', c], spans).vec) == [LetterItem(c)]
  {
    var p, one := ['%', c], [Directive(0, 2)];
    assert Shaped(p, one[0]) && one[1..] == [] && one[..0] == [];
    TilesUnique(p, spans, one, 0);
    assert EmitAll(p, one).vec == [Field([c], "")];
  }

  /** Text as a pattern spells it. */
  function Escape(text: string): string
  {
    if text == "" then "" else (if text[0] == '%' then "%%" else [text[0]]) + Escape(text[1..])
  }

  function Spelt(item: Item): string
  {
    match item
    case StringItem(text) => Escape(text)
    case FieldItem(kind, fmt) => "%" + [LetterOf(kind)] + "{" + fmt + "}"
  }

  /** A pattern for these items. */
  function PatternOf(items: seq<Item>): string
  {
    if items == [] then "" else Spelt(items[0]) + PatternOf(items[1..])
  }

  predicate Sound(item: Item)
  {
    match item
    case StringItem(text) => text != ""
    case FieldItem(_, fmt) => '}' !in fmt
  }

  /** Texts are not empty and do not follow each other, formats hold no closing brace. */
  predicate Spellable(items: seq<Item>)
  {
    items == [] ||
    (Sound(items[0]) && (items[0].StringItem? && |items| > 1 ==> items[1].FieldItem?) && Spellable(items[1..]))
  }

  /** What one more item does to vec and nstr, */
  function FeedOne(e: Emitted, item: Item): Emitted
  {
    match item
    case StringItem(text) => e.(pending := e.pending + text)
    case FieldItem(kind, fmt) => Emitted(e.Flush() + [Field([LetterOf(kind)], fmt)], "", e.error)
  }

  /** and all of them. */
  function Feed(e: Emitted, items: seq<Item>): Emitted
    decreases |items|
  {
    if items == [] then e else Feed(FeedOne(e, items[0]), items[1..])
  }

  predicate Here(p: string, from: nat, to: nat, text: string)
  {
    from <= to <= |p| && p[from..to] == text
  }

  lemma HereParts(p: string, from: nat, to: nat, a: string, b: string)
    requires Here(p, from, to, a + b)
    ensures Here(p, from, from + |a|, a) && Here(p, from + |a|, to, b)
  {
    assert p[from..to][..|a|] == a && p[from..to][|a|..] == b;
    assert p[from..from + |a|] == p[from..to][..|a|] && p[from + |a|..to] == p[from..to][|a|..];
  }

  lemma HereChar(p: string, from: nat, to: nat, text: string, k: nat)
    requires Here(p, from, to, text) && k < |text|
    ensures from + k < to && p[from + k] == text[k]
  {
    assert p[from..to][k] == p[from + k];
  }

  /** The pattern has been cut up to `to`, with this result. */
  predicate Cut(p: string, spans: seq<Span>, to: nat, e: Emitted)
  {
    Tiles(p, spans, 0, to) && AllShaped(p, spans) && EmitAll(p, spans) == e
  }

  lemma CutMore(p: string, spans: seq<Span>, to: nat, e: Emitted, s: Span)
    requires Cut(p, spans, to, e) && Shaped(p, s) && s.from == to
    ensures Cut(p, spans + [s], s.to, Emit(p, e, s))
  {
    TileOneMore(p, spans, 0, to, s);
    EmitOneMore(p, spans, s);
  }

  /** Up to its first % a text is spelt as it stands. */
  lemma {:induction false} EscapeRun(text: string, n: nat)
    requires n <= |text| && forall k :: 0 <= k < n ==> text[k] != '%'
    ensures Escape(text) == text[..n] + Escape(text[n..])
    decreases n
  {
    if n > 0 {
      EscapeRun(text[1..], n - 1);
      assert text[..n] == [text[0]] + text[1..][..n - 1] && text[1..][n - 1..] == text[n..];
    } else {
      assert text[0..] == text;
    }
  }

  function RunLength(text: string): (n: nat)
    ensures n <= |text| && (n < |text| ==> text[n] == '%') && forall k :: 0 <= k < n ==> text[k] != '%'
  {
    if text == "" || text[0] == '%' then 0 else 1 + RunLength(text[1..])
  }

  /** The spans of an escaped text. */
  lemma {:induction false} TextBack(p: string, spans: seq<Span>, from: nat, text: string, to: nat, e: Emitted) returns (more: seq<Span>)
    requires Cut(p, spans, from, e) && Here(p, from, to, Escape(text)) && (to == |p| || p[to] == '%')
    ensures Cut(p, more, to, e.(pending := e.pending + text))
    decreases |text|
  {
    hide Cut;
    more := spans;
    if text == "" {
      assert e.pending + text == e.pending;
    } else {
      var n := RunLength(text);
      var k := if n == 0 then 1 else n;
      var s := if n == 0 then PercentHere(p, from, text, to) else LiteralHere(p, from, text, n, to);
      CutMore(p, spans, from, e, s);
      more := TextBack(p, spans + [s], s.to, text[k..], to, e.(pending := e.pending + text[..k]));
      assert e.pending + text[..k] + text[k..] == e.pending + text;
    }
  }

  function PercentHere(p: string, from: nat, text: string, to: nat): (s: Span)
    requires text != "" && text[0] == '%' && Here(p, from, to, Escape(text))
    ensures Shaped(p, s) && s.from == from && Here(p, s.to, to, Escape(text[1..]))
    ensures forall e: Emitted :: Emit(p, e, s) == e.(pending := e.pending + text[..1])
  {
    assert Escape(text) == "%%" + Escape(text[1..]);
    HereParts(p, from, to, "%%", Escape(text[1..]));
    HereChar(p, from, from + 2, "%%", 0);
    HereChar(p, from, from + 2, "%%", 1);
    assert text[..1] == "%";
    Percent(from, from + 2)
  }

  function LiteralHere(p: string, from: nat, text: string, n: nat, to: nat): (s: Span)
    requires text != "" && n == RunLength(text) > 0 && Here(p, from, to, Escape(text)) && (to == |p| || p[to] == '%')
    ensures Shaped(p, s) && s.from == from && Here(p, s.to, to, Escape(text[n..]))
    ensures forall e: Emitted :: Emit(p, e, s) == e.(pending := e.pending + text[..n])
  {
    EscapeRun(text, n);
    HereParts(p, from, to, text[..n], Escape(text[n..]));
    LiteralStops(p, from, text, n, to);
    Literal(from, from + n)
  }

  lemma LiteralStops(p: string, from: nat, text: string, n: nat, to: nat)
    requires text != "" && n == RunLength(text) > 0
    requires Here(p, from, from + n, text[..n]) && Here(p, from + n, to, Escape(text[n..])) && (to == |p| || p[to] == '%')
    ensures p[from] != '%' && UpToPercent(p, from, from + n)
  {
    forall k | from <= k < from + n ensures p[k] != '%' {
      HereChar(p, from, from + n, text[..n], k - from);
    }
    if n < |text| {
      HereChar(p, from + n, to, Escape(text[n..]), 0);
    }
  }

  /** The span of a directive. */
  lemma FieldBack(p: string, spans: seq<Span>, from: nat, c: char, fmt: string, to: nat, e: Emitted) returns (more: seq<Span>)
    requires Cut(p, spans, from, e) && Here(p, from, to, "%" + [c] + "{" + fmt + "}") && IsAlpha(c) && '}' !in fmt
    ensures Cut(p, more, to, Emitted(e.Flush() + [Field([c], fmt)], "", e.error))
  {
    hide Cut;
    var text, s := "%" + [c] + "{" + fmt + "}", Directive(from, to);
    forall i | 0 <= i < |text| ensures p[from + i] == text[i] {
      HereChar(p, from, to, text, i);
    }
    assert forall i :: from + 3 <= i < to - 1 ==> p[i] == text[i - from] == fmt[i - from - 3];
    assert p[from + 3..to - 1] == fmt;
    CutMore(p, spans, from, e, s);
    more := spans + [s];
  }

  lemma ItemBack(p: string, spans: seq<Span>, from: nat, item: Item, to: nat, e: Emitted) returns (more: seq<Span>)
    requires Cut(p, spans, from, e) && Here(p, from, to, Spelt(item)) && Sound(item)
    requires item.StringItem? ==> to == |p| || p[to] == '%'
    ensures Cut(p, more, to, FeedOne(e, item))
  {
    hide Cut;
    hide Escape;
    match item {
      case StringItem(text) => more := TextBack(p, spans, from, text, to, e);
      case FieldItem(kind, fmt) => more := FieldBack(p, spans, from, LetterOf(kind), fmt, to, e);
    }
  }

  /** The spans of all of it, up to the end or to another %. */
  lemma {:induction false} ItemsBack(p: string, spans: seq<Span>, from: nat, end: nat, items: seq<Item>, e: Emitted) returns (more: seq<Span>)
    requires Cut(p, spans, from, e) && Spellable(items) && Here(p, from, end, PatternOf(items)) && (end == |p| || p[end] == '%')
    ensures Cut(p, more, end, Feed(e, items))
    decreases |items|
  {
    hide Cut;
    hide Spelt;
    hide FeedOne;
    hide Sound;
    more := spans;
    if items == [] {
      assert from == end;
    } else {
      var to := from + |Spelt(items[0])|;
      HereParts(p, from, end, Spelt(items[0]), PatternOf(items[1..]));
      PercentNext(p, to, end, items);
      hide Here;
      more := ItemBack(p, spans, from, items[0], to, e);
      more := ItemsBack(p, more, to, end, items[1..], FeedOne(e, items[0]));
    }
  }

  /** A text is followed by a directive, if by anything. */
  lemma PercentNext(p: string, to: nat, end: nat, items: seq<Item>)
    requires items != [] && Spellable(items) && Here(p, to, end, PatternOf(items[1..])) && (end == |p| || p[end] == '%')
    ensures items[0].StringItem? ==> to == |p| || p[to] == '%'
  {
    if items[0].StringItem? && |items| > 1 {
      var rest := items[1..];
      assert rest[0].FieldItem? && Spelt(rest[0])[0] == '%' && PatternOf(rest)[0] == '%';
      HereChar(p, to, end, PatternOf(rest), 0);
    }
  }

  /** All items but a text at the end, */
  function ButLastText(items: seq<Item>): seq<Item>
  {
    if items == [] || (|items| == 1 && items[0].StringItem?) then [] else [items[0]] + ButLastText(items[1..])
  }

  /** and that text. */
  function LastText(items: seq<Item>): string
  {
    if items != [] && items[|items| - 1].StringItem? then items[|items| - 1].text else ""
  }

  lemma FlushFed(e: Emitted, item: Item)
    requires Sound(item) && (e.pending == "" || item.FieldItem?)
    ensures Items(FeedOne(e, item).Flush()) == Items(e.Flush()) + [item]
    ensures item.FieldItem? ==> FeedOne(e, item).pending == ""
    ensures item.StringItem? ==> Items(FeedOne(e, item).vec) == Items(e.Flush()) && FeedOne(e, item).pending == item.text
  {
    match item
    case FieldItem(kind, fmt) =>
      OneLetterEach(kind, [LetterOf(kind)]);
      hide KindOf;
      ItemsMore(e.Flush(), Field([LetterOf(kind)], fmt));
    case StringItem(text) =>
      assert e.pending + text == text;
      ItemsMore(e.vec, Text(text));
  }

  lemma ItemsMore(vec: seq<Piece>, piece: Piece)
    ensures Items(vec + [piece]) == Items(vec) + [ItemOf(piece)]
  {
  }

  lemma {:induction false} FeedItems(e: Emitted, items: seq<Item>)
    requires Spellable(items) && items != [] && (e.pending == "" || items[0].FieldItem?)
    ensures Feed(e, items).error == e.error && Feed(e, items).pending == LastText(items)
    ensures Items(Feed(e, items).vec) == Items(e.Flush()) + ButLastText(items)
    decreases |items|
  {
    var f, rest := FeedOne(e, items[0]), items[1..];
    FlushFed(e, items[0]);
    if rest == [] {
      assert ButLastText(rest) == [];
    } else {
      FeedItems(f, rest);
      assert LastText(rest) == LastText(items);
      assert Items(e.Flush()) + [items[0]] + ButLastText(rest) == Items(e.Flush()) + ([items[0]] + ButLastText(rest));
    }
  }

  /** Every list of items is what init() makes of a pattern for it, but for a text at the
      end, which it gathers and drops; and no error is recorded. */
  lemma SpeltItemsBack(items: seq<Item>, spans: seq<Span>)
    requires Spellable(items)
    requires var p := PatternOf(items); Tiles(p, spans, 0, |p|) && AllShaped(p, spans)
    ensures var e := EmitAll(PatternOf(items), spans);
            !e.error && Items(e.vec) == ButLastText(items) && e.pending == LastText(items)
  {
    var p, e := PatternOf(items), Emitted([], "", false);
    assert p[0..|p|] == p;
    var more := ItemsBack(p, [], 0, |p|, items, e);
    TilesUnique(p, spans, more, 0);
    if items != [] {
      FeedItems(e, items);
    }
  }

  /** A brace that is left open behind them: what lies from its % on is text. */
  lemma OpenBraceIsText(items: seq<Item>, c: char, rest: string, spans: seq<Span>)
    requires Spellable(items) && LastText(items) == "" && IsAlpha(c) && '}' !in rest && '%' !in rest
    requires var p := PatternOf(items) + ("%" + [c] + "{" + rest); Tiles(p, spans, 0, |p|) && AllShaped(p, spans)
    ensures var e := EmitAll(PatternOf(items) + ("%" + [c] + "{" + rest), spans);
            e.error && e.pending == "" && Items(e.vec) == ButLastText(items) + [StringItem("%" + [c] + "{" + rest)]
  {
    var q, open, e := PatternOf(items), "%" + [c] + "{" + rest, Emitted([], "", false);
    var p := q + open;
    assert p[0..|p|] == p;
    HereParts(p, 0, |p|, q, open);
    var f := Feed(e, items);
    HereChar(p, |q|, |p|, open, 0);
    var some := ItemsBack(p, [], 0, |q|, items, e);
    var s := OpenHere(p, |q|, c, rest);
    if items != [] {
      FeedItems(e, items);
    }
    assert !f.error && f.pending == "" && Items(f.vec) == ButLastText(items);
    hide Feed;
    hide PatternOf;
    hide Spellable;
    CutMore(p, some, |q|, f, s);
    ItemsMore(f.vec, Text(open));
    TilesUnique(p, spans, some + [s], 0);
  }

  function OpenHere(p: string, from: nat, c: char, rest: string): (s: Span)
    requires Here(p, from, |p|, "%" + [c] + "{" + rest) && IsAlpha(c) && '}' !in rest && '%' !in rest
    ensures Shaped(p, s) && s.from == from && s.to == |p|
    ensures forall e: Emitted :: e.pending == "" ==> Emit(p, e, s) == Emitted(e.vec + [Text("%" + [c] + "{" + rest)], "", true)
  {
    var open := "%" + [c] + "{" + rest;
    assert forall i :: from <= i < |p| ==> p[i] == open[i - from] by {
      assert forall i :: from <= i < |p| ==> p[i] == p[from..|p|][i - from];
    }
    assert p[from..|p|] == open && "" + open == open;
    Broken(from, |p|)
  }

  /** With npos for an end, substr takes the rest of the pattern. */
  lemma CopyRun(p: string, i: nat, tmp: int)
    requires |p| < NPOS && i <= |p| && i <= tmp && (tmp == NPOS || tmp <= |p|)
    ensures Substr(p, i, tmp - i) == p[i..if tmp == NPOS then |p| else tmp]
  {
  }

  class LogFormatter {
    const pattern: string
    var items: seq<Item>
    var error: bool

    constructor (pattern: string)
      requires |pattern| < NPOS
      ensures this.pattern == pattern
      ensures exists spans :: Tiles(pattern, spans, 0, |pattern|) && AllShaped(pattern, spans) &&
                items == Items(EmitAll(pattern, spans).vec) && error == EmitAll(pattern, spans).error
    {
      this.pattern := pattern;
      items, error := [], false;
      new;
      var spans := Init();
    }

    /** init(). The spans it cuts the pattern into lie end to end over all of it; the
        items are theirs, but for the text that is still pending at the end. */
    method Init() returns (ghost spans: seq<Span>)
      requires |pattern| < NPOS && items == [] && !error
      modifies this
      ensures Tiles(pattern, spans, 0, |pattern|) && AllShaped(pattern, spans)
      ensures items == Items(EmitAll(pattern, spans).vec) && error == EmitAll(pattern, spans).error
      ensures forall its :: Spellable(its) && PatternOf(its) == pattern ==> items == ButLastText(its) && !error
      ensures forall c :: IsAlpha(c) && pattern == ['%', c] ==> items == [LetterItem(c)] && !error
    {
      var nstr, vec := "", [];
      spans := [];
      var i := 0;
      while i < |pattern|
        invariant 0 <= i <= |pattern| || i == NPOS
        invariant Tiles(pattern, spans, 0, if i == NPOS then |pattern| else i) && AllShaped(pattern, spans)
        invariant EmitAll(pattern, spans) == Emitted(vec, nstr, error) && items == []
        decreases if i < |pattern| then |pattern| - i else 0
      {
        ghost var span;
        i, nstr, vec, span := Turn(i, nstr, vec);
        TileOneMore(pattern, spans, 0, span.from, span);
        EmitOneMore(pattern, spans, span);
        spans := spans + [span];
        i := Wrap(i + 1);
      }
      MakeItems(vec);
      forall its | Spellable(its) && PatternOf(its) == pattern ensures items == ButLastText(its) && !error {
        SpeltItemsBack(its, spans);
      }
      forall c | IsAlpha(c) && pattern == ['%', c] ensures items == [LetterItem(c)] && !error {
        OneDirective(c, spans);
      }
    }

    /** One turn of the loop, up to its ++i. */
    method Turn(at: nat, text: string, pieces: seq<Piece>) returns (i: int, nstr: string, vec: seq<Piece>, ghost span: Span)
      requires at < |pattern| < NPOS
      modifies this`error
      ensures Shaped(pattern, span) && span.from == at
      ensures Wrap(i + 1) == span.to || (Wrap(i + 1) == NPOS && span.to == |pattern|)
      ensures Emitted(vec, nstr, error) == Emit(pattern, Emitted(pieces, text, old(error)), span)
    {
      i, nstr, vec := at, text, pieces;
      ghost var to;
      var c := pattern[i];
      if c != '%' {
        i, nstr, to := Run(at, at, nstr);
        span := Literal(at, to);
        return;
      }
      if i + 1 < |pattern| {
        c := pattern[i + 1];
        if c == '%' {
          nstr := nstr + [c];
          i := i + 1;
          span := Percent(at, at + 2);
          return;
        } else if !IsAlpha(c) {
          i, nstr, to := Run(at, at + 1, nstr);
          span := Literal(at, to);
          return;
        }
      }
      i, nstr, vec, span := DirectiveTurn(at, text, pieces);
    }

    /** Text from `at` to the next % after `from`. When there is none, tmp is npos, and
        ++i leaves i there. */
    method Run(at: nat, from: nat, text: string) returns (i: int, nstr: string, ghost to: nat)
      requires at <= from <= |pattern| < NPOS
      ensures UpToPercent(pattern, from, to) && nstr == text + pattern[at..to]
      ensures Wrap(i + 1) == to || (Wrap(i + 1) == NPOS && to == |pattern|)
    {
      var tmp := Find(pattern, '%', from);
      CopyRun(pattern, at, tmp);
      nstr := text + Substr(pattern, at, tmp - at);
      i := tmp - 1;
      to := if tmp == NPOS then |pattern| else tmp;
    }

    /** The rest of a turn, at a % that a letter or nothing follows. */
    method DirectiveTurn(at: nat, text: string, pieces: seq<Piece>) returns (i: int, nstr: string, vec: seq<Piece>, ghost span: Span)
      requires Opens(pattern, at) && |pattern| < NPOS
      modifies this`error
      ensures Shaped(pattern, span) && span.from == at
      ensures Wrap(i + 1) == span.to || (Wrap(i + 1) == NPOS && span.to == |pattern|)
      ensures Emitted(vec, nstr, error) == Emit(pattern, Emitted(pieces, text, old(error)), span)
    {
      nstr, vec := text, pieces;
      var str, fmt, open;
      i, str, fmt, open := ParseDirective(at);
      if !open {
        if nstr != "" {
          vec := vec + [Text(nstr)];
          nstr := "";
        }
        vec := vec + [Field(str, fmt)];
        span := Directive(at, i + 1);
      } else {
        ghost var to;
        i, nstr, to := Run(at, at + 1, nstr);
        vec := vec + [Text(nstr)];
        nstr := "";
        error := true;
        span := Broken(at, to);
      }
    }

    /** The inner loop, over what follows a %: the new i, str, fmt and fmt_status. */
    method ParseDirective(at: nat) returns (i: nat, str: string, fmt: string, open: bool)
      requires Opens(pattern, at)
      ensures open ==> i == at && fmt == "" && Braced(pattern, at) && forall k :: at + 3 <= k < |pattern| ==> pattern[k] != '}'
      ensures !open ==> 0 <= i && Shaped(pattern, Directive(at, i + 1)) && Field(str, fmt) == FieldOf(pattern, at, i + 1)
    {
      i := at;
      var n: nat, begin: nat := i + 1, 0;
      str, fmt, open := "", "", false;
      while n < |pattern|
        invariant i == at && at + 1 <= n <= |pattern| && fmt == ""
        invariant !open ==> n <= at + 2 && (n == at + 2 ==> n < |pattern|) && (at + 1 == |pattern| ==> str == "")
        invariant open ==> Braced(pattern, at) && begin == at + 3 <= n && str == [pattern[at + 1]] &&
                           forall k :: at + 3 <= k < n ==> pattern[k] != '}'
      {
        var c := pattern[n];
        if c == '{' && !open {
          str := Substr(pattern, i + 1, n - (i + 1));
          begin := n + 1;
          open := true;
          n := n + 1;
          continue;
        } else if c == '}' && open {
          fmt := Substr(pattern, begin, n - begin);
          i := n;
          open := false;
          break;
        }
        if (n - i >= 2 || n == |pattern| - 1) && !open {
          str := Substr(pattern, i + 1, 1);
          i := i + 1;
          break;
        }
        n := n + 1;
      }
    }

    /** The loop over vec. */
    method MakeItems(vec: seq<Piece>)
      requires items == []
      modifies this`items
      ensures items == Items(vec)
    {
      var k := 0;
      while k < |vec|
        invariant 0 <= k <= |vec| && items == Items(vec[..k])
      {
        items := items + [ItemOf(vec[k])];
        k := k + 1;
      }
    }
  }
}

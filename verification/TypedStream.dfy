/** The typed writers and readers of ByteArray, proved against the functions of Wire,
    and the write-everything, read-everything-back run that its test performs. */
module TypedStream {
  import opened Codec
  import opened Wire
  import opened Chain
  import opened ByteArrays

  // ---------- writers ----------

  /** writeFint8 ... writeFuint64. */
  method WriteFixed(ba: ByteArray, v: int, n: nat, ghost signed: bool)
    requires ba.Valid() && FitsWidth(v, n, signed)
    requires Fits(ba.baseSize, ba.View(), WireBytes(ba.endian, v, n))
    modifies ba, ba.Repr
    ensures ba.Valid() && fresh(ba.Repr - old(ba.Repr)) && old(ba.Repr) <= ba.Repr && ba.endian == old(ba.endian)
    ensures ba.View() == Written(ba.baseSize, old(ba.View()), WireBytes(ba.endian, v, n))
  {
    FixedBytesAreWireBytes(ba.hostOrder, ba.endian, v, n, signed);
    var value := Pattern(v, n);
    if ba.endian != ba.hostOrder {
      value := ByteSwap(value, n);
    }
    ba.Write(Native(ba.hostOrder, value, n));
  }

  /** writeUint32 and writeUint64. */
  method WriteVarint(ba: ByteArray, value: nat, bits: nat)
    requires ba.Valid() && (bits == 32 || bits == 64) && value < Pow(2, bits)
    requires Fits(ba.baseSize, ba.View(), VarintBytes(value))
    modifies ba, ba.Repr
    ensures ba.Valid() && fresh(ba.Repr - old(ba.Repr)) && old(ba.Repr) <= ba.Repr && ba.endian == old(ba.endian)
    ensures ba.View() == Written(ba.baseSize, old(ba.View()), VarintBytes(value))
  {
    var bytes := VarintBuffer(value, bits);
    ba.Write(bytes);
  }

  /** Their loop: the bytes gathered in tmp[5] or tmp[10], which never overflows. */
  method VarintBuffer(value: nat, bits: nat) returns (bytes: seq<byte>)
    requires (bits == 32 || bits == 64) && value < Pow(2, bits)
    ensures bytes == VarintBytes(value)
  {
    VarintFitsBuffer(value);
    hide Pow;
    var tmp := new byte[if bits == 32 then 5 else 10];
    var i: nat, v: nat := 0, value;
    while v >= 0x80
      invariant i + |VarintBytes(v)| <= tmp.Length
      invariant tmp[..i] + VarintBytes(v) == VarintBytes(value)
      decreases v
    {
      ghost var before := tmp[..i];
      tmp[i] := v % 0x80 + 0x80;
      assert tmp[..i + 1] == before + [v % 0x80 + 0x80];
      i := i + 1;
      v := v / 0x80;
    }
    tmp[i] := v;
    i := i + 1;
    bytes := tmp[..i];
  }

  /** writeStringF16, F32, F64 and Vint: the length, cut to the prefix, then the text. */
  method WriteText(ba: ByteArray, p: Prefix, s: seq<byte>)
    requires ba.Valid() && |s| < Pow(2, 64)
    requires FitsAll(ba.baseSize, ba.View(), [PrefixBytes(ba.endian, p, |s|), s])
    modifies ba, ba.Repr
    ensures ba.Valid() && fresh(ba.Repr - old(ba.Repr)) && old(ba.Repr) <= ba.Repr && ba.endian == old(ba.endian)
    ensures ba.View() == WrittenAll(ba.baseSize, old(ba.View()), [PrefixBytes(ba.endian, p, |s|), s])
  {
    TwoRuns(ba.baseSize, ba.View(), PrefixBytes(ba.endian, p, |s|), s);
    WritePrefix(ba, p, |s|);
    ba.Write(s);
  }

  method WritePrefix(ba: ByteArray, p: Prefix, len: nat)
    requires ba.Valid() && Fits(ba.baseSize, ba.View(), PrefixBytes(ba.endian, p, len))
    modifies ba, ba.Repr
    ensures ba.Valid() && fresh(ba.Repr - old(ba.Repr)) && old(ba.Repr) <= ba.Repr && ba.endian == old(ba.endian)
    ensures ba.View() == Written(ba.baseSize, old(ba.View()), PrefixBytes(ba.endian, p, len))
  {
    match p
    case P16 => WriteFixed(ba, Kept(p, len), 2, false);
    case P32 => WriteFixed(ba, Kept(p, len), 4, false);
    case P64 => WriteFixed(ba, Kept(p, len), 8, false);
    case PVarint => WriteVarint(ba, Kept(p, len), 64);
  }

  /** The writer of kind k. */
  method WriteValue(ba: ByteArray, k: Kind, v: Value)
    requires ba.Valid() && Encodable(k, v)
    requires FitsAll(ba.baseSize, ba.View(), Runs(ba.endian, k, v))
    modifies ba, ba.Repr
    ensures ba.Valid() && fresh(ba.Repr - old(ba.Repr)) && old(ba.Repr) <= ba.Repr && ba.endian == old(ba.endian)
    ensures ba.View() == WrittenAll(ba.baseSize, old(ba.View()), Runs(ba.endian, k, v))
  {
    assert k.Text? || Runs(ba.endian, k, v)[1..] == [];
    match k
    case Fixed(n, signed) => WriteFixed(ba, v.i, n, signed);
    case Varint(bits) => WriteVarint(ba, v.i, bits);
    case Zigzag(bits) => WriteVarint(ba, ZigzagEncode(v.i, bits), bits);
    case Text(p) => WriteText(ba, p, v.s);
  }

  // ---------- readers ----------

  method ReadFixed(ba: ByteArray, n: nat, signed: bool) returns (r: Option<int>)
    requires ba.Valid() && n > 0
    modifies ba`position, ba`cur
    ensures ba.Valid()
    ensures var d := FixedRead(ba.endian, n, signed, old(ba.View()).Readable());
            r == d.result && ba.position == old(ba.position) + d.consumed
  {
    var bytes := ba.Read(n);
    if bytes.None? {
      return None;
    }
    FixedValueIsWireValue(ba.hostOrder, ba.endian, bytes.value, signed);
    r := Some(FixedValue(ba.hostOrder, ba.endian, bytes.value, signed));
  }

  /** readFuint8. */
  method ReadByte(ba: ByteArray) returns (r: Option<byte>)
    requires ba.Valid()
    modifies ba`position, ba`cur
    ensures ba.Valid()
    ensures var all := old(ba.View()).Readable();
            if all == [] then r == None && ba.position == old(ba.position)
            else r == Some(all[0]) && ba.position == old(ba.position) + 1 && ba.View().Readable() == all[1..]
  {
    var bytes := ba.Read(1);
    if bytes.None? {
      return None;
    }
    r := Some(bytes.value[0]);
  }

  /** readUint32 and readUint64. */
  method ReadVarint(ba: ByteArray, bits: nat) returns (r: Option<int>)
    requires ba.Valid() && bits > 0
    modifies ba`position, ba`cur
    ensures ba.Valid()
    ensures var d := VarintRead(old(ba.View()).Readable(), bits);
            r == d.result && ba.position == old(ba.position) + d.consumed
  {
    ghost var d := VarintRead(ba.View().Readable(), bits);
    var result: nat, i: nat := 0, 0;
    ghost var done: nat := 0;
    while i < bits
      invariant ba.Valid() && ba.position == old(ba.position) + done
      invariant d == VarintLoop(ba.View().Readable(), bits, i, result).Later(done)
      decreases if i < bits then bits - i else 0
    {
      var b := ReadByte(ba);
      if b.None? {
        return None;
      }
      done := done + 1;
      result := result + ((b.value % 0x80) * Pow(2, i)) % Pow(2, bits);
      if b.value < 0x80 {
        break;
      }
      i := i + 7;
    }
    r := Some(result);
  }

  method ReadPrefix(ba: ByteArray, p: Prefix) returns (r: Option<int>)
    requires ba.Valid()
    modifies ba`position, ba`cur
    ensures ba.Valid()
    ensures var d := PrefixRead(ba.endian, p, old(ba.View()).Readable());
            r == d.result && ba.position == old(ba.position) + d.consumed
  {
    match p
    case P16 => r := ReadFixed(ba, 2, false);
    case P32 => r := ReadFixed(ba, 4, false);
    case P64 => r := ReadFixed(ba, 8, false);
    case PVarint => r := ReadVarint(ba, 64);
  }

  /** The reader of a string of length zero still reads zero bytes, which needs a
      current node. */
  predicate TextReadable(endian: Endian, p: Prefix, t: Tape)
    requires t.Sane()
  {
    var d := PrefixRead(endian, p, t.Readable());
    d.result == Some(0) ==> t.pos + d.consumed < t.cap
  }

  /** readStringF16, F32, F64 and Vint. */
  method ReadText(ba: ByteArray, p: Prefix) returns (r: Option<seq<byte>>)
    requires ba.Valid() && TextReadable(ba.endian, p, ba.View())
    modifies ba`position, ba`cur
    ensures ba.Valid()
    ensures var d := TextRead(ba.endian, p, old(ba.View()).Readable());
            r == d.result && ba.position == old(ba.position) + d.consumed
  {
    hide ByteArray.Valid;
    hide PrefixRead;
    ghost var all := ba.View().Readable();
    var len := ReadPrefix(ba, p);
    if len.None? {
      return None;
    }
    assert ba.View().Readable() == all[PrefixRead(ba.endian, p, all).consumed..];
    r := ba.Read(len.value);
  }

  /** The reader of kind k. */
  method ReadValue(ba: ByteArray, k: Kind) returns (r: Option<Value>)
    requires ba.Valid() && KnownKind(k) && (k.Text? ==> TextReadable(ba.endian, k.prefix, ba.View()))
    modifies ba`position, ba`cur
    ensures ba.Valid()
    ensures var d := Decode(ba.endian, k, old(ba.View()).Readable());
            r == d.result && ba.position == old(ba.position) + d.consumed
  {
    match k {
      case Fixed(n, signed) =>
        var i := ReadFixed(ba, n, signed);
        r := if i.None? then None else Some(Int(i.value));
      case Varint(bits) =>
        var i := ReadVarint(ba, bits);
        r := if i.None? then None else Some(Int(i.value));
      case Zigzag(bits) =>
        var i := ReadVarint(ba, bits);
        r := if i.None? then None else Some(Int(ZigzagDecode(i.value, bits)));
      case Text(p) =>
        var s := ReadText(ba, p);
        r := if s.None? then None else Some(Str(s.value));
    }
  }

  // ---------- writing everything and reading it back ----------

  datatype Item = Item(kind: Kind, value: Value)

  predicate AllLegal(items: seq<Item>)
  {
    forall it <- items :: Legal(it.kind, it.value)
  }

  function AllRuns(endian: Endian, items: seq<Item>): seq<seq<byte>>
    requires AllLegal(items)
  {
    if items == [] then [] else Runs(endian, items[0].kind, items[0].value) + AllRuns(endian, items[1..])
  }

  function EncodeAll(endian: Endian, items: seq<Item>): (bs: seq<byte>)
    requires AllLegal(items)
    ensures |bs| >= |items|
  {
    if items == [] then [] else Encode(endian, items[0].kind, items[0].value) + EncodeAll(endian, items[1..])
  }

  function Values(items: seq<Item>): (vs: seq<Value>)
    ensures |vs| == |items|
  {
    seq(|items|, i requires 0 <= i < |items| => items[i].value)
  }

  function Kinds(items: seq<Item>): (ks: seq<Kind>)
    ensures |ks| == |items|
  {
    seq(|items|, i requires 0 <= i < |items| => items[i].kind)
  }

  /** The only reader that can find no current node: that of an empty string whose
      prefix ends at the end of the last node. */
  predicate EmptyStringLast(items: seq<Item>)
  {
    items != [] && items[|items| - 1].kind.Text? && items[|items| - 1].value == Str([])
  }

  /** The strings among the items that their readers could not read: empty, with the
      prefix ending at capacity. */
  predicate ReadersSafe(endian: Endian, items: seq<Item>, pos: nat, cap: nat)
    requires AllLegal(items)
  {
    items == [] ||
    ((items[0].kind.Text? && items[0].value == Str([]) ==>
        pos + |Encode(endian, items[0].kind, items[0].value)| < cap) &&
     ReadersSafe(endian, items[1..], pos + |Encode(endian, items[0].kind, items[0].value)|, cap))
  }

  /** Reading back is safe exactly unless the last item is an empty string and the
      items fill the array to the last byte. */
  lemma {:induction false} ReadersSafeIff(endian: Endian, items: seq<Item>, pos: nat, cap: nat)
    requires AllLegal(items) && pos + |EncodeAll(endian, items)| <= cap
    ensures ReadersSafe(endian, items, pos, cap) <==> !(EmptyStringLast(items) && pos + |EncodeAll(endian, items)| == cap)
  {
    if items != [] {
      SafeStep(endian, items, pos, cap);
      hide EncodeAll;
      hide ReadersSafe;
      hide Encode;
      var rest, n := items[1..], |Encode(endian, items[0].kind, items[0].value)|;
      ReadersSafeIff(endian, rest, pos + n, cap);
      if rest != [] {
        assert rest[|rest| - 1] == items[|items| - 1];
      }
    }
  }

  lemma SafeStep(endian: Endian, items: seq<Item>, pos: nat, cap: nat)
    requires AllLegal(items) && items != []
    ensures var rest, n := items[1..], |Encode(endian, items[0].kind, items[0].value)|;
            |EncodeAll(endian, items)| == n + |EncodeAll(endian, rest)| &&
            (rest == [] <==> |EncodeAll(endian, rest)| == 0) && (rest == [] ==> ReadersSafe(endian, rest, pos + n, cap)) &&
            (ReadersSafe(endian, items, pos, cap) <==>
               (items[0].kind.Text? && items[0].value == Str([]) ==> pos + n < cap) && ReadersSafe(endian, rest, pos + n, cap))
  {
    hide Encode;
  }

  lemma {:induction false} ConcatRuns(a: seq<seq<byte>>, b: seq<seq<byte>>)
    ensures Concat(a + b) == Concat(a) + Concat(b)
  {
    if a == [] {
      assert a + b == b;
    } else {
      assert (a + b)[1..] == a[1..] + b;
      ConcatRuns(a[1..], b);
    }
  }

  lemma {:induction false} AllRunsEncode(endian: Endian, items: seq<Item>)
    requires AllLegal(items)
    ensures Concat(AllRuns(endian, items)) == EncodeAll(endian, items)
  {
    if items != [] {
      ConcatRuns(Runs(endian, items[0].kind, items[0].value), AllRuns(endian, items[1..]));
      AllRunsEncode(endian, items[1..]);
    }
  }

  /** The writing half of the test: every value with its writer. */
  method WriteAll(ba: ByteArray, items: seq<Item>)
    requires ba.Valid() && AllLegal(items)
    requires FitsAll(ba.baseSize, ba.View(), AllRuns(ba.endian, items))
    modifies ba, ba.Repr
    ensures ba.Valid() && fresh(ba.Repr - old(ba.Repr)) && old(ba.Repr) <= ba.Repr && ba.endian == old(ba.endian)
    ensures ba.View() == WrittenAll(ba.baseSize, old(ba.View()), AllRuns(ba.endian, items))
  {
    hide ByteArray.Valid;
    hide ByteArray.View;
    var i := 0;
    ghost var final := WrittenAll(ba.baseSize, ba.View(), AllRuns(ba.endian, items));
    while i < |items|
      invariant 0 <= i <= |items|
      invariant ba.Valid() && fresh(ba.Repr - old(ba.Repr)) && old(ba.Repr) <= ba.Repr && ba.endian == old(ba.endian)
      invariant FitsAll(ba.baseSize, ba.View(), AllRuns(ba.endian, items[i..]))
      invariant WrittenAll(ba.baseSize, ba.View(), AllRuns(ba.endian, items[i..])) == final
    {
      ghost var rest := items[i..];
      assert rest[0] == items[i] && rest[1..] == items[i + 1..];
      WrittenInParts(ba.baseSize, ba.View(), Runs(ba.endian, items[i].kind, items[i].value), AllRuns(ba.endian, rest[1..]));
      WriteValue(ba, items[i].kind, items[i].value);
      i := i + 1;
    }
  }

  /** The reading half: every value with the matching reader. */
  method ReadAll(ba: ByteArray, ghost items: seq<Item>, kinds: seq<Kind>, ghost rest: seq<byte>) returns (back: seq<Value>)
    requires ba.Valid() && AllLegal(items)
    requires kinds == Kinds(items)
    requires ba.View().Readable() == EncodeAll(ba.endian, items) + rest
    requires ReadersSafe(ba.endian, items, ba.position, ba.capacity)
    modifies ba`position, ba`cur
    ensures ba.Valid() && back == Values(items)
    ensures ba.position == old(ba.position) + |EncodeAll(ba.endian, items)| && ba.View().Readable() == rest
  {
    back := [];
    var i := 0;
    ghost var end := ba.position + |EncodeAll(ba.endian, items)|;
    assert items[0..] == items;
    while i < |kinds|
      invariant 0 <= i <= |kinds| && back == Values(items)[..i]
      invariant ba.Valid() && Pending(ba.endian, items[i..], rest, ba.View(), end)
    {
      var v := ReadItem(ba, kinds[i], items[i..], rest, end);
      OneMore(items, i, v);
      back := back + [v];
      i := i + 1;
    }
  }

  lemma OneMore(items: seq<Item>, i: nat, v: Value)
    requires i < |items| && v == items[i].value
    ensures items[i..][1..] == items[i + 1..]
    ensures Values(items)[..i] + [v] == Values(items)[..i + 1]
  {
  }

  /** Midway: these items are still to be read, up to position `end`. */
  predicate Pending(endian: Endian, todo: seq<Item>, rest: seq<byte>, t: Tape, end: nat)
  {
    AllLegal(todo) && t.Sane() && t.Readable() == EncodeAll(endian, todo) + rest &&
    ReadersSafe(endian, todo, t.pos, t.cap) && t.pos + |EncodeAll(endian, todo)| == end
  }

  method ReadItem(ba: ByteArray, k: Kind, ghost todo: seq<Item>, ghost rest: seq<byte>, ghost end: nat) returns (v: Value)
    requires ba.Valid() && todo != [] && k == todo[0].kind && Pending(ba.endian, todo, rest, ba.View(), end)
    modifies ba`position, ba`cur
    ensures ba.Valid() && v == todo[0].value
    ensures Pending(ba.endian, todo[1..], rest, ba.View(), end)
  {
    ghost var t := ba.View();
    ReadBack(ba.endian, todo, rest, t);
    var r := ReadValue(ba, k);
    AfterRead(ba.endian, todo, rest, t, ba.View());
    v := r.value;
  }

  /** One step of it. */
  lemma ReadBack(endian: Endian, todo: seq<Item>, rest: seq<byte>, t: Tape)
    requires AllLegal(todo) && todo != [] && t.Sane() && t.Readable() == EncodeAll(endian, todo) + rest
    requires ReadersSafe(endian, todo, t.pos, t.cap)
    ensures var head := todo[0];
            var n := |Encode(endian, head.kind, head.value)|;
            Decode(endian, head.kind, t.Readable()) == Decoded(Some(head.value), n) &&
            (head.kind.Text? ==> TextReadable(endian, head.kind.prefix, t))
  {
    var head := todo[0];
    var enc := Encode(endian, head.kind, head.value);
    var tail := EncodeAll(endian, todo[1..]) + rest;
    HeadFirst(t.Readable(), enc, EncodeAll(endian, todo[1..]), rest);
    DecodeEncode(endian, head.kind, head.value, tail);
    if head.kind.Text? {
      TextIsReadable(endian, head.kind.prefix, head.value.s, tail, t);
    }
  }

  lemma AfterRead(endian: Endian, todo: seq<Item>, rest: seq<byte>, t: Tape, u: Tape)
    requires AllLegal(todo) && todo != [] && t.Sane() && t.Readable() == EncodeAll(endian, todo) + rest
    requires ReadersSafe(endian, todo, t.pos, t.cap)
    requires u == t.(pos := t.pos + |Encode(endian, todo[0].kind, todo[0].value)|)
    ensures u.Sane() && u.Readable() == EncodeAll(endian, todo[1..]) + rest
    ensures ReadersSafe(endian, todo[1..], u.pos, u.cap)
    ensures u.pos + |EncodeAll(endian, todo[1..])| == t.pos + |EncodeAll(endian, todo)|
  {
    Advanced(t, u, Encode(endian, todo[0].kind, todo[0].value), EncodeAll(endian, todo[1..]), rest);
    SafeTail(endian, todo, t.pos, u.pos, t.cap);
  }

  lemma Advanced(t: Tape, u: Tape, a: seq<byte>, b: seq<byte>, c: seq<byte>)
    requires t.Sane() && t.Readable() == a + b + c && u == t.(pos := t.pos + |a|)
    ensures u.Sane() && u.Readable() == b + c
  {
    assert u.Readable() == t.Readable()[|a|..];
  }

  lemma SafeTail(endian: Endian, todo: seq<Item>, pos: nat, to: nat, cap: nat)
    requires AllLegal(todo) && todo != [] && ReadersSafe(endian, todo, pos, cap)
    requires to == pos + |Encode(endian, todo[0].kind, todo[0].value)|
    ensures ReadersSafe(endian, todo[1..], to, cap)
  {
  }

  lemma HeadFirst(all: seq<byte>, a: seq<byte>, b: seq<byte>, c: seq<byte>)
    requires all == a + b + c
    ensures all == a + (b + c) && all[|a|..] == b + c
  {
  }

  lemma TextIsReadable(endian: Endian, p: Prefix, s: seq<byte>, tail: seq<byte>, t: Tape)
    requires |s| < Pow(2, 64) && |s| < Limit(p)
    requires t.Sane() && t.Readable() == Encode(endian, Text(p), Str(s)) + tail
    requires s == [] ==> t.pos + |Encode(endian, Text(p), Str(s))| < t.cap
    ensures TextReadable(endian, p, t)
  {
    var pre := PrefixBytes(endian, p, |s|);
    EncodeText(endian, p, s);
    HeadFirst(t.Readable(), pre, s, tail);
    PrefixReadBack(endian, p, |s|, s + tail);
  }

  /** The whole run of the test, from any state of the array: write the values, set
      the position back, read them again with the matching readers. */
  method RoundTrip(ba: ByteArray, items: seq<Item>) returns (back: seq<Value>)
    requires ba.Valid() && AllLegal(items)
    requires FitsAll(ba.baseSize, ba.View(), AllRuns(ba.endian, items))
    requires var w := WrittenAll(ba.baseSize, ba.View(), AllRuns(ba.endian, items));
             !(EmptyStringLast(items) && w.pos == w.cap)
    modifies ba, ba.Repr
    ensures ba.Valid()
    ensures back == Values(items)
    ensures ba.position == old(ba.position) + |EncodeAll(ba.endian, items)|
    ensures old(ba.size) <= ba.position ==> ba.GetReadSize() == 0
  {
    hide Overwrite;
    hide Encode;
    hide ByteArray.Valid;
    hide EncodeAll;
    hide WrittenAll;
    hide FitsAll;
    hide AllRuns;
    var start := ba.position;
    ghost var rest := ReadyToRead(ba.baseSize, ba.endian, ba.View(), items);
    WriteAll(ba, items);
    var ok := ba.SetPosition(start);
    back := ReadAll(ba, items, Kinds(items), rest);
  }

  /** What the readers find: the encoded items, then whatever lay behind them. */
  lemma ReadyToRead(base: nat, endian: Endian, t: Tape, items: seq<Item>) returns (rest: seq<byte>)
    requires base > 0 && t.Sane() && AllLegal(items) && FitsAll(base, t, AllRuns(endian, items))
    ensures var w := WrittenAll(base, t, AllRuns(endian, items));
            w.pos == t.pos + |EncodeAll(endian, items)| <= |w.content| &&
            w.content[t.pos..] == EncodeAll(endian, items) + rest && |rest| == |w.content| - w.pos &&
            (|t.content| <= w.pos ==> rest == []) &&
            (!(EmptyStringLast(items) && w.pos == w.cap) ==> ReadersSafe(endian, items, t.pos, w.cap))
  {
    var bytes := EncodeAll(endian, items);
    var w := WrittenAll(base, t, AllRuns(endian, items));
    AllRunsEncode(endian, items);
    WrittenAllAtOnce(base, t, AllRuns(endian, items));
    rest := w.content[w.pos..];
    OverwriteRead(t.content, t.pos, bytes);
    ReadersSafeIff(endian, items, t.pos, w.cap);
  }
}

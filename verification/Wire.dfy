/** The typed values a ByteArray can carry, what each writer hands to write() and
    what each reader makes of the bytes it finds. */
module Wire {
  import opened Codec
  import opened Chain

  /** The length prefix of a string writer. */
  datatype Prefix = P16 | P32 | P64 | PVarint

  datatype Kind =
    | Fixed(n: nat, signed: bool)   // writeFint8 ... writeFuint64
    | Varint(bits: nat)             // writeUint32, writeUint64
    | Zigzag(bits: nat)             // writeInt32, writeInt64
    | Text(prefix: Prefix)          // writeStringF16, F32, F64, Vint

  datatype Value = Int(i: int) | Str(s: seq<byte>)

  /** How many different lengths a prefix can tell apart. */
  function Limit(p: Prefix): (m: int)
    ensures m > 0
  {
    match p
    case P16 => Pow(256, 2)
    case P32 => Pow(256, 4)
    case P64 => Pow(256, 8)
    case PVarint => Pow(2, 64)
  }

  predicate KnownKind(k: Kind)
  {
    match k
    case Fixed(n, _) => n == 1 || n == 2 || n == 4 || n == 8
    case Varint(bits) => bits == 32 || bits == 64
    case Zigzag(bits) => bits == 32 || bits == 64
    case Text(_) => true
  }

  /** What the C++ argument types allow; a string is as long as size_t can say. */
  predicate Encodable(k: Kind, v: Value)
  {
    KnownKind(k) &&
    match k
    case Fixed(n, signed) => v.Int? && FitsWidth(v.i, n, signed)
    case Varint(bits) => v.Int? && 0 <= v.i < Pow(2, bits)
    case Zigzag(bits) => v.Int? && -Pow(2, bits) < 2 * v.i < Pow(2, bits)
    case Text(_) => v.Str? && |v.s| < Pow(2, 64)
  }

  /** Encodable, and a string's length survives its prefix. */
  predicate Legal(k: Kind, v: Value)
  {
    Encodable(k, v) && (k.Text? ==> |v.s| < Limit(k.prefix))
  }

  /** The length the prefix records: the cast to the prefix type drops the high bits. */
  function Kept(p: Prefix, len: nat): (n: int)
    ensures 0 <= n <= len && n < Limit(p)
    ensures n == len <==> len < Limit(p)
  {
    ModBounds(len, Limit(p));
    len % Limit(p)
  }

  /** The prefix of a string of length `len`. */
  function PrefixBytes(endian: Endian, p: Prefix, len: nat): (bs: seq<byte>)
    ensures |bs| > 0
  {
    match p
    case P16 => WireBytes(endian, Kept(p, len), 2)
    case P32 => WireBytes(endian, Kept(p, len), 4)
    case P64 => WireBytes(endian, Kept(p, len), 8)
    case PVarint => VarintBytes(Kept(p, len))
  }

  /** The byte runs handed to write(), one after the other. */
  function Runs(endian: Endian, k: Kind, v: Value): (runs: seq<seq<byte>>)
    requires Encodable(k, v)
    ensures |runs| > 0 && |runs[0]| > 0
  {
    match k
    case Fixed(n, _) => [WireBytes(endian, v.i, n)]
    case Varint(_) => [VarintBytes(v.i)]
    case Zigzag(bits) => [VarintBytes(ZigzagEncode(v.i, bits))]
    case Text(p) => [PrefixBytes(endian, p, |v.s|), v.s]
  }

  function Encode(endian: Endian, k: Kind, v: Value): (bs: seq<byte>)
    requires Encodable(k, v)
    ensures |bs| > 0
  {
    Concat(Runs(endian, k, v))
  }

  // ---------- reading ----------

  function FixedRead(endian: Endian, n: nat, signed: bool, avail: seq<byte>): (d: Decoded<int>)
    ensures d.consumed <= |avail|
  {
    // read() refuses as a whole
    if n > |avail| then Decoded(None, 0)
    else Decoded(Some(WireValue(endian, avail[..n], signed)), n)
  }

  function PrefixRead(endian: Endian, p: Prefix, avail: seq<byte>): (d: Decoded<int>)
    ensures d.consumed <= |avail|
    ensures d.result.Some? ==> d.result.value >= 0
  {
    match p
    case P16 => FixedRead(endian, 2, false, avail)
    case P32 => FixedRead(endian, 4, false, avail)
    case P64 => FixedRead(endian, 8, false, avail)
    case PVarint => VarintRead(avail, 64)
  }

  function TextRead(endian: Endian, p: Prefix, avail: seq<byte>): (d: Decoded<seq<byte>>)
    ensures d.consumed <= |avail|
  {
    var len := PrefixRead(endian, p, avail);
    if len.result.None? then Decoded(None, len.consumed)
    else
      var rest := avail[len.consumed..];
      // the prefix stays consumed when the text is too short
      if len.result.value > |rest| then Decoded(None, len.consumed)
      else Decoded(Some(rest[..len.result.value]), len.consumed + len.result.value)
  }

  /** The reader of kind k on the readable bytes `avail`. */
  function Decode(endian: Endian, k: Kind, avail: seq<byte>): (d: Decoded<Value>)
    requires KnownKind(k)
    ensures d.consumed <= |avail|
  {
    match k
    case Fixed(n, signed) =>
      var d := FixedRead(endian, n, signed, avail);
      Decoded(if d.result.None? then None else Some(Int(d.result.value)), d.consumed)
    case Varint(bits) =>
      var d := VarintRead(avail, bits);
      Decoded(if d.result.None? then None else Some(Int(d.result.value)), d.consumed)
    case Zigzag(bits) =>
      var d := VarintRead(avail, bits);
      Decoded(if d.result.None? then None else Some(Int(ZigzagDecode(d.result.value, bits))), d.consumed)
    case Text(p) =>
      var d := TextRead(endian, p, avail);
      Decoded(if d.result.None? then None else Some(Str(d.result.value)), d.consumed)
  }

  // ---------- round trips ----------

  lemma FixedReadBack(endian: Endian, v: int, n: nat, signed: bool, rest: seq<byte>)
    requires n > 0 && FitsWidth(v, n, signed)
    ensures FixedRead(endian, n, signed, WireBytes(endian, v, n) + rest) == Decoded(Some(v), n)
  {
    WireRoundTrip(endian, v, n, signed);
    assert (WireBytes(endian, v, n) + rest)[..n] == WireBytes(endian, v, n);
  }

  lemma PrefixReadBack(endian: Endian, p: Prefix, len: nat, rest: seq<byte>)
    ensures PrefixRead(endian, p, PrefixBytes(endian, p, len) + rest)
            == Decoded(Some(Kept(p, len)), |PrefixBytes(endian, p, len)|)
  {
    match p
    case P16 => FixedReadBack(endian, Kept(p, len), 2, false, rest);
    case P32 => FixedReadBack(endian, Kept(p, len), 4, false, rest);
    case P64 => FixedReadBack(endian, Kept(p, len), 8, false, rest);
    case PVarint => VarintRoundTrip(Kept(p, len), rest, 64);
  }

  /** What comes back of a string: its first |s| mod Limit bytes. */
  lemma TextReadBack(endian: Endian, p: Prefix, s: seq<byte>, rest: seq<byte>)
    ensures var kept := Kept(p, |s|);
            TextRead(endian, p, PrefixBytes(endian, p, |s|) + s + rest)
            == Decoded(Some(s[..kept]), |PrefixBytes(endian, p, |s|)| + kept)
  {
    var pre := PrefixBytes(endian, p, |s|);
    PrefixReadBack(endian, p, |s|, s + rest);
    assert pre + s + rest == pre + (s + rest);
    assert (pre + s + rest)[|pre|..] == s + rest;
    var kept := Kept(p, |s|);
    assert (s + rest)[..kept] == s[..kept];
  }

  lemma EncodeText(endian: Endian, p: Prefix, s: seq<byte>)
    requires |s| < Pow(2, 64)
    ensures Encode(endian, Text(p), Str(s)) == PrefixBytes(endian, p, |s|) + s
  {
    var runs := Runs(endian, Text(p), Str(s));
    assert runs[1..] == [s] && [s][1..] == [];
    assert Concat([s]) == s;
  }

  lemma EncodeInt(endian: Endian, k: Kind, v: Value)
    requires Encodable(k, v) && !k.Text?
    ensures Encode(endian, k, v) == Runs(endian, k, v)[0]
  {
    var runs := Runs(endian, k, v);
    assert runs[1..] == [] && Concat([]) == [];
  }

  lemma DecodeInt(endian: Endian, k: Kind, v: Value, rest: seq<byte>)
    requires Encodable(k, v) && !k.Text?
    ensures Decode(endian, k, Runs(endian, k, v)[0] + rest) == Decoded(Some(v), |Runs(endian, k, v)[0]|)
  {
    match k
    case Fixed(n, signed) =>
      FixedReadBack(endian, v.i, n, signed, rest);
    case Varint(bits) =>
      VarintRoundTrip(v.i, rest, bits);
    case Zigzag(bits) =>
      VarintRoundTrip(ZigzagEncode(v.i, bits), rest, bits);
      ZigzagDecodeEncode(v.i, bits);
  }

  lemma DecodeText(endian: Endian, p: Prefix, s: seq<byte>, rest: seq<byte>)
    requires |s| < Pow(2, 64)
    ensures Decode(endian, Text(p), Encode(endian, Text(p), Str(s)) + rest)
            == Decoded(Some(Str(s[..Kept(p, |s|)])), |PrefixBytes(endian, p, |s|)| + Kept(p, |s|))
  {
    EncodeText(endian, p, s);
    TextReadBack(endian, p, s, rest);
  }

  /** Every value the writers accept within its length limit is read back by the
      matching reader, which takes exactly the bytes written, whatever follows. */
  lemma DecodeEncode(endian: Endian, k: Kind, v: Value, rest: seq<byte>)
    requires Legal(k, v)
    ensures Decode(endian, k, Encode(endian, k, v) + rest) == Decoded(Some(v), |Encode(endian, k, v)|)
  {
    if k.Text? {
      DecodeText(endian, k.prefix, v.s, rest);
      EncodeText(endian, k.prefix, v.s);
      assert v.s[..|v.s|] == v.s;
    } else {
      EncodeInt(endian, k, v);
      DecodeInt(endian, k, v, rest);
    }
  }

  /** A string survives exactly when its length is below the limit of its prefix:
      65536 for writeStringF16, whose length is cast to 16 bits. */
  lemma TextSurvivesIff(endian: Endian, p: Prefix, s: seq<byte>, rest: seq<byte>)
    requires |s| < Pow(2, 64)
    ensures Decode(endian, Text(p), Encode(endian, Text(p), Str(s)) + rest).result == Some(Str(s))
            <==> (p.P16? ==> |s| < 0x1_0000) && (p.P32? ==> |s| < 0x1_0000_0000)
  {
    PowersOf256();
    PowersOf2();
    DecodeText(endian, p, s, rest);
    var kept := s[..Kept(p, |s|)];
    assert kept == s <==> |kept| == |s|;
  }

  lemma PowersOf256()
    ensures Pow(256, 2) == 0x1_0000 && Pow(256, 4) == 0x1_0000_0000 && Pow(256, 8) == 0x1_0000_0000_0000_0000
  {
    assert Pow(256, 1) == 256;
    PowAdd(256, 2, 2);
    PowAdd(256, 4, 4);
  }

  /** The bytes a string becomes: its length in two, four or eight bytes of the chosen order
      or as a varint, cut to what the prefix holds, and the text. */
  lemma TextLaidOut(endian: Endian, p: Prefix, s: seq<byte>)
    requires |s| < Pow(2, 64)
    ensures Encode(endian, Text(p), Str(s)) ==
            (match p
             case P16 => WireBytes(endian, |s| % 0x1_0000, 2)
             case P32 => WireBytes(endian, |s| % 0x1_0000_0000, 4)
             case P64 => WireBytes(endian, |s|, 8)
             case PVarint => VarintBytes(|s|)) + s
  {
    EncodeText(endian, p, s);
    PowersOf256();
    PowersOf2();
    ModBounds(|s|, Limit(p));
  }

  /** The bytes an integer becomes. */
  lemma IntLaidOut(endian: Endian, k: Kind, v: Value)
    requires Encodable(k, v) && !k.Text?
    ensures k.Fixed? ==> Encode(endian, k, v) == WireBytes(endian, v.i, k.n)
    ensures k.Varint? ==> Leb(Encode(endian, k, v)) == v.i
    ensures k.Zigzag? ==> Leb(Encode(endian, k, v)) == if v.i >= 0 then 2 * v.i else -2 * v.i - 1
  {
    EncodeInt(endian, k, v);
    if k.Varint? {
      VarintIsLeb(v.i);
    } else if k.Zigzag? {
      VarintIsLeb(ZigzagEncode(v.i, k.bits));
      ZigzagMeans(v.i, 0, k.bits);
    }
  }

  /** How many bytes a reader takes of a value that is cut off behind its first `len` bytes. */
  function TakenOf(endian: Endian, k: Kind, v: Value, len: nat): nat
    requires Encodable(k, v)
  {
    match k
    case Fixed(_, _) => 0
    case Varint(_) => len
    case Zigzag(_) => len
    case Text(p) =>
      var prefix := |PrefixBytes(endian, p, |v.s|)|;
      if len >= prefix then prefix else if p.PVarint? then len else 0
  }

  lemma VarintCutShort(v: nat, bits: nat, len: nat)
    requires (bits == 32 || bits == 64) && v < Pow(2, bits) && len < |VarintBytes(v)|
    ensures VarintRead(VarintBytes(v)[..len], bits) == Decoded(None, len)
  {
    VarintIsLeb(v);
    VarintFitsBuffer(v);
    hide Pow;
    VarintReadMeans(VarintBytes(v)[..len], bits);
  }

  lemma PrefixCutShort(endian: Endian, p: Prefix, n: nat, len: nat)
    requires len < |PrefixBytes(endian, p, n)|
    ensures PrefixRead(endian, p, PrefixBytes(endian, p, n)[..len]) == Decoded(None, if p.PVarint? then len else 0)
  {
    if p.PVarint? {
      VarintCutShort(Kept(p, n), 64, len);
    }
  }

  lemma TextCutShort(endian: Endian, p: Prefix, s: seq<byte>, len: nat)
    requires |s| < Limit(p) && len < |PrefixBytes(endian, p, |s|) + s|
    ensures var prefix := |PrefixBytes(endian, p, |s|)|;
            TextRead(endian, p, (PrefixBytes(endian, p, |s|) + s)[..len]) ==
            Decoded(None, if len >= prefix then prefix else if p.PVarint? then len else 0)
  {
    var pre := PrefixBytes(endian, p, |s|);
    if len < |pre| {
      assert (pre + s)[..len] == pre[..len];
      PrefixCutShort(endian, p, |s|, len);
    } else {
      assert (pre + s)[..len] == pre + s[..len - |pre|];
      PrefixReadBack(endian, p, |s|, s[..len - |pre|]);
    }
  }

  /** A value that is cut off anywhere is not read: a fixed-width reader takes nothing then,
      one of a varint all there is, and one of a string its prefix, if that is whole. */
  lemma CutShort(endian: Endian, k: Kind, v: Value, len: nat)
    requires Legal(k, v) && len < |Encode(endian, k, v)|
    ensures Decode(endian, k, Encode(endian, k, v)[..len]) == Decoded(None, TakenOf(endian, k, v, len))
  {
    match k
    case Fixed(_, _) => EncodeInt(endian, k, v);
    case Varint(bits) =>
      EncodeInt(endian, k, v);
      VarintCutShort(v.i, bits, len);
    case Zigzag(bits) =>
      EncodeInt(endian, k, v);
      VarintCutShort(ZigzagEncode(v.i, bits), bits, len);
    case Text(p) =>
      EncodeText(endian, p, v.s);
      TextCutShort(endian, p, v.s, len);
  }

  lemma LongStringLosesItsTail(s: seq<byte>)
    requires |s| == 65536
    ensures Limit(P16) == 65536 && |s| < Pow(2, 64)
    ensures Decode(Big, Text(P16), Encode(Big, Text(P16), Str(s))) == Decoded(Some(Str([])), 2)
  {
    PowersOf2();
    assert Pow(256, 1) == 256;
    DecodeText(Big, P16, s, []);
    assert Encode(Big, Text(P16), Str(s)) + [] == Encode(Big, Text(P16), Str(s));
    ModUnique(65536, 65536, 1, 0);
  }
}

/** The byte-level codec of ByteArray: integers in either byte order, base-128
    varints, zigzag and length-prefixed strings, as functions on byte sequences.
    The class in ByteArray.dfy is proved to write and read exactly these. */
module Codec {

  type byte = x: int | 0 <= x < 256

  datatype Option<+T> = None | Some(value: T)

  /** FATDOG_LITTLE_ENDIAN and FATDOG_BIG_ENDIAN. */
  datatype Endian = Little | Big

  // ---------- powers and positional notation ----------

  function Pow(b: nat, n: nat): (p: int)
    ensures p >= 0 && (b > 0 ==> p > 0)
  {
    if n == 0 then 1 else b * Pow(b, n - 1)
  }

  lemma MulAssociative(a: int, b: int, c: int)
    ensures a * (b * c) == (a * b) * c
  {
  }

  lemma {:induction false} PowAdd(b: nat, m: nat, n: nat)
    ensures Pow(b, m + n) == Pow(b, m) * Pow(b, n)
  {
    if m > 0 {
      PowAdd(b, m - 1, n);
      MulAssociative(b, Pow(b, m - 1), Pow(b, n));
    }
  }

  /** The n low-order bytes of v, least significant first. */
  function LittleBytes(v: nat, n: nat): (bs: seq<byte>)
    ensures |bs| == n
  {
    if n == 0 then [] else [v % 256] + LittleBytes(v / 256, n - 1)
  }

  function LittleValue(bs: seq<byte>): (v: nat)
    ensures v < Pow(256, |bs|)
  {
    if bs == [] then 0
    else
      var rest := LittleValue(bs[1..]);
      assert bs[0] + 256 * rest < 256 * Pow(256, |bs| - 1);
      bs[0] + 256 * rest
  }

  lemma {:induction false} LittleValueOfBytes(v: nat, n: nat)
    requires v < Pow(256, n)
    ensures LittleValue(LittleBytes(v, n)) == v
  {
    if n > 0 {
      assert v / 256 < Pow(256, n - 1);
      LittleValueOfBytes(v / 256, n - 1);
      assert LittleBytes(v, n)[1..] == LittleBytes(v / 256, n - 1);
    }
  }

  lemma {:induction false} LittleBytesOfValue(bs: seq<byte>)
    ensures LittleBytes(LittleValue(bs), |bs|) == bs
  {
    if bs != [] {
      LittleBytesOfValue(bs[1..]);
      var v := LittleValue(bs);
      assert v % 256 == bs[0] && v / 256 == LittleValue(bs[1..]);
    }
  }

  function Reverse(bs: seq<byte>): (r: seq<byte>)
    ensures |r| == |bs|
    ensures forall i :: 0 <= i < |bs| ==> r[i] == bs[|bs| - 1 - i]
  {
    seq(|bs|, i requires 0 <= i < |bs| => bs[|bs| - 1 - i])
  }

  lemma ReverseReverse(bs: seq<byte>)
    ensures Reverse(Reverse(bs)) == bs
  {
  }

  // ---------- fixed-width integers ----------

  /** How an n-byte unsigned value lies in the memory of a host. */
  function Native(host: Endian, v: nat, n: nat): (bs: seq<byte>)
    ensures |bs| == n
  {
    if host == Little then LittleBytes(v, n) else Reverse(LittleBytes(v, n))
  }

  function FromNative(host: Endian, bs: seq<byte>): (v: nat)
    ensures v < Pow(256, |bs|)
  {
    LittleValue(if host == Little then bs else Reverse(bs))
  }

  /** bswap_16, bswap_32 and bswap_64: the value whose bytes are reversed. */
  function ByteSwap(v: nat, n: nat): (r: nat)
    ensures r < Pow(256, n)
  {
    LittleValue(Reverse(LittleBytes(v, n)))
  }

  /** The two's complement pattern of a (possibly negative) n-byte integer. */
  function Pattern(v: int, n: nat): int
  {
    if v < 0 then v + Pow(256, n) else v
  }

  function FromPattern(u: nat, n: nat, signed: bool): int
  {
    if signed && 2 * u >= Pow(256, n) then u - Pow(256, n) else u
  }

  predicate FitsWidth(v: int, n: nat, signed: bool)
  {
    if signed then -Pow(256, n) <= 2 * v < Pow(256, n) else 0 <= v < Pow(256, n)
  }

  /** writeFint8 ... writeFuint64: swap when the chosen order is not the host's,
      then copy the host's memory. */
  function FixedBytes(host: Endian, endian: Endian, v: int, n: nat): (bs: seq<byte>)
    requires 0 <= Pattern(v, n)
    ensures |bs| == n
  {
    var u := Pattern(v, n);
    Native(host, if endian != host then ByteSwap(u, n) else u, n)
  }

  /** readFint8 ... readFuint64. */
  function FixedValue(host: Endian, endian: Endian, bs: seq<byte>, signed: bool): int
  {
    var u := FromNative(host, bs);
    FromPattern(if endian == host then u else ByteSwap(u, |bs|), |bs|, signed)
  }

  /** What reaches the buffer does not depend on the host: it is the value's
      pattern in the byte order the buffer was told to use. */
  function WireBytes(endian: Endian, v: int, n: nat): (bs: seq<byte>)
    requires 0 <= Pattern(v, n)
    ensures |bs| == n
  {
    if endian == Little then LittleBytes(Pattern(v, n), n) else Reverse(LittleBytes(Pattern(v, n), n))
  }

  /** Bits 8k to 8k + 7. */
  function ByteOf(u: nat, k: nat): byte
  {
    (u / Pow(256, k)) % 256
  }

  lemma {:induction false} LittleByteAt(u: nat, n: nat, k: nat)
    requires k < n
    ensures LittleBytes(u, n)[k] == ByteOf(u, k)
  {
    if k > 0 {
      LittleByteAt(u / 256, n - 1, k - 1);
      DivDiv(u, 256, Pow(256, k - 1));
    }
  }

  lemma DivDiv(u: nat, a: nat, b: nat)
    requires a > 0 && b > 0
    ensures a * b > 0 && (u / a) / b == u / (a * b)
  {
    var q, k := u / a, (u / a) / b;
    var r, r' := u % a, q % b;
    MulLe(1, a, b);
    assert u == a * q + r && q == b * k + r';
    MulLe(r' + 1, b, a);
    assert a * (b * k + r') == a * (b * k) + a * r';
    MulAssociative(a, b, k);
    ModUnique(u, a * b, k, a * r' + r);
  }

  /** Each byte of an n-byte integer: in little endian order the k-th byte holds bits 8k to
      8k + 7 of its two's complement, in big endian order the k-th from the end. */
  lemma WireByteAt(endian: Endian, v: int, n: nat, k: nat)
    requires FitsWidth(v, n, v < 0) && k < n
    ensures Pattern(v, n) == (if v < 0 then v + Pow(256, n) else v) >= 0
    ensures WireBytes(endian, v, n)[if endian == Little then k else n - 1 - k] == ByteOf(Pattern(v, n), k)
  {
    hide Pow;
    hide ByteOf;
    hide LittleBytes;
    LittleByteAt(Pattern(v, n), n, k);
  }

  lemma FixedBytesAreWireBytes(host: Endian, endian: Endian, v: int, n: nat, signed: bool)
    requires FitsWidth(v, n, signed)
    ensures FixedBytes(host, endian, v, n) == WireBytes(endian, v, n)
  {
    if endian != host {
      var rev := Reverse(LittleBytes(Pattern(v, n), n));
      LittleBytesOfValue(rev);
      ReverseReverse(LittleBytes(Pattern(v, n), n));
    }
  }

  /** What a reader makes of n bytes, on any host. */
  function WireValue(endian: Endian, bs: seq<byte>, signed: bool): int
  {
    FromPattern(LittleValue(if endian == Little then bs else Reverse(bs)), |bs|, signed)
  }

  lemma FixedValueIsWireValue(host: Endian, endian: Endian, bs: seq<byte>, signed: bool)
    ensures FixedValue(host, endian, bs, signed) == WireValue(endian, bs, signed)
  {
    if endian != host {
      LittleBytesOfValue(if host == Little then bs else Reverse(bs));
      ReverseReverse(bs);
    }
  }

  lemma WireRoundTrip(endian: Endian, v: int, n: nat, signed: bool)
    requires n > 0 && FitsWidth(v, n, signed)
    ensures WireValue(endian, WireBytes(endian, v, n), signed) == v
  {
    LittleValueOfBytes(Pattern(v, n), n);
    ReverseReverse(LittleBytes(Pattern(v, n), n));
  }

  /** A reader on any host recovers a value written on any other host. */
  lemma FixedRoundTrip(writer: Endian, reader: Endian, endian: Endian, v: int, n: nat, signed: bool)
    requires n > 0 && FitsWidth(v, n, signed)
    ensures FixedValue(reader, endian, FixedBytes(writer, endian, v, n), signed) == v
  {
    FixedBytesAreWireBytes(writer, endian, v, n, signed);
    FixedValueIsWireValue(reader, endian, WireBytes(endian, v, n), signed);
    WireRoundTrip(endian, v, n, signed);
  }

  // ---------- base-128 varints (unsigned LEB128, section 7.6 of DWARF Version 5) ----------

  /** writeUint32 and writeUint64: seven bits a byte, high bit set on all but the last. */
  function VarintBytes(v: nat): (bs: seq<byte>)
    ensures |bs| > 0
  {
    if v < 128 then [v] else [v % 128 + 128] + VarintBytes(v / 128)
  }

  /** What a base-128 sequence stands for: the low seven bits of each byte, least
      significant first. */
  function Leb(bs: seq<byte>): (v: nat)
  {
    if bs == [] then 0 else bs[0] % 128 + 128 * Leb(bs[1..])
  }

  /** The encoding stands for v, and only its last byte has the high bit clear. */
  lemma {:induction false} VarintIsLeb(v: nat)
    ensures Leb(VarintBytes(v)) == v
    ensures forall k :: 0 <= k < |VarintBytes(v)| ==> (VarintBytes(v)[k] < 128 <==> k == |VarintBytes(v)| - 1)
  {
    if v >= 128 {
      VarintIsLeb(v / 128);
      assert VarintBytes(v)[1..] == VarintBytes(v / 128);
    }
  }

  /** The encoding is one byte per started group of seven bits. */
  lemma {:induction false} VarintLength(v: nat)
    ensures v < Pow(128, |VarintBytes(v)|)
    ensures |VarintBytes(v)| == 1 || Pow(128, |VarintBytes(v)| - 1) <= v
  {
    if v >= 128 {
      VarintLength(v / 128);
      var k := |VarintBytes(v / 128)|;
      assert |VarintBytes(v)| == k + 1;
      assert v < 128 * Pow(128, k);
    }
  }

  lemma PowMonotone(b: nat, m: nat, n: nat)
    requires b >= 1 && m <= n
    ensures Pow(b, m) <= Pow(b, n)
  {
    PowAdd(b, m, n - m);
    var x, y := Pow(b, m), Pow(b, n - m);
    assert Pow(b, n) == x * y && y >= 1;
    hide Pow;
    MulLe(1, y, x);
    assert y * x == x * y;
  }

  lemma PowersOf128()
    ensures Pow(128, 1) == 0x80 && Pow(128, 2) == 0x4000
    ensures Pow(128, 4) == 0x1000_0000 && Pow(128, 5) == 0x8_0000_0000
    ensures Pow(128, 8) == 0x100_0000_0000_0000 && Pow(128, 9) == 0x8000_0000_0000_0000 && Pow(128, 10) == 0x40_0000_0000_0000_0000
  {
    assert Pow(128, 3) == 0x20_0000;
    PowAdd(128, 4, 4);
  }

  lemma PowersOf2()
    ensures Pow(2, 32) == 0x1_0000_0000 && Pow(2, 64) == 0x1_0000_0000_0000_0000
  {
    assert Pow(2, 8) == 0x100;
    PowAdd(2, 8, 8);
    PowAdd(2, 16, 16);
    PowAdd(2, 32, 32);
  }

  /** tmp[5] and tmp[10] are always long enough. */
  lemma VarintFitsBuffer(v: nat)
    ensures v < Pow(2, 32) ==> |VarintBytes(v)| <= 5
    ensures v < Pow(2, 64) ==> |VarintBytes(v)| <= 10
  {
    VarintLength(v);
    PowersOf128();
    PowersOf2();
    var k := |VarintBytes(v)|;
    if k > 5 { PowMonotone(128, 5, k - 1); }
    if k > 10 { PowMonotone(128, 10, k - 1); }
  }

  /** A reader's outcome: the value, or None for std::out_of_range, and how many
      bytes it took either way. */
  datatype Decoded<+T> = Decoded(result: Option<T>, consumed: nat)
  {
    /** The same outcome, n bytes earlier. */
    function Later(n: nat): Decoded<T> { Decoded(result, consumed + n) }
  }

  /** The loop of readUint32 (bits = 32) and readUint64 (bits = 64) from shift i on,
      with `acc` read so far: `|=` adds disjoint bits, a left shift drops what
      leaves the word, and the loop ends at a short byte or when i >= bits. */
  function VarintLoop(avail: seq<byte>, bits: nat, i: nat, acc: nat): (d: Decoded<nat>)
    ensures d.consumed <= |avail|
    decreases if i < bits then bits - i else 0
  {
    if i >= bits then Decoded(Some(acc), 0)
    else if avail == [] then Decoded(None, 0)
    else
      var acc' := acc + ((avail[0] % 128) * Pow(2, i)) % Pow(2, bits);
      if avail[0] < 128 then Decoded(Some(acc'), 1)
      else
        var d := VarintLoop(avail[1..], bits, i + 7, acc');
        Decoded(d.result, d.consumed + 1)
  }

  lemma SevenBitsMore(i: nat)
    ensures Pow(2, i + 7) == 128 * Pow(2, i)
  {
    PowAdd(2, 7, i);
    assert Pow(2, 7) == 128;
  }

  /** The reader stops exactly after the writer's bytes and returns the value,
      whatever follows. */
  lemma SevenLess(v: nat, q: nat, p: nat)
    requires q == v / 128
    ensures v * p == q * (128 * p) + (v % 128) * p && q * (128 * p) <= v * p
  {
    assert v == 128 * q + v % 128;
    MulAssociative(q, 128, p);
  }

  lemma {:induction false} VarintLoopReads(v: nat, rest: seq<byte>, bits: nat, i: nat, acc: nat)
    requires i < bits && v * Pow(2, i) < Pow(2, bits)
    ensures VarintLoop(VarintBytes(v) + rest, bits, i, acc) == Decoded(Some(acc + v * Pow(2, i)), |VarintBytes(v)|)
    decreases v
  {
    var p := Pow(2, i);
    var avail := VarintBytes(v) + rest;
    assert (v % 128) * p <= v * p by { MulLe(v % 128, v, p); }
    assert 0 <= (v % 128) * p;
    assert ((v % 128) * p) % Pow(2, bits) == (v % 128) * p by { SmallMod((v % 128) * p, Pow(2, bits)); }
    if v >= 128 {
      assert avail[0] == v % 128 + 128 && avail[0] % 128 == v % 128;
      assert avail[1..] == VarintBytes(v / 128) + rest;
      SevenBitsMore(i);
      var q := v / 128;
      SevenLess(v, q, p);
      if i + 7 >= bits {
        PowMonotone(2, bits, i + 7);
        MulLe(1, q, 128 * p);
        assert false;
      }
      VarintLoopReads(q, rest, bits, i + 7, acc + (v % 128) * p);
    }
  }

  lemma MulLe(a: int, b: int, c: int)
    requires a <= b && 0 <= c
    ensures a * c <= b * c
  {
  }

  lemma ModBounds(x: nat, m: nat)
    requires m > 0
    ensures 0 <= x % m <= x && x % m < m
    ensures x % m == x <==> x < m
  {
    if x < m {
      SmallMod(x, m);
    }
  }

  lemma SmallMod(x: nat, m: nat)
    requires x < m
    ensures x % m == x
  {
  }

  lemma QuotientUnique(d: int, k: int, r: int, k': int, r': int)
    requires 0 <= r < d && 0 <= r' < d && d * k + r == d * k' + r'
    ensures k == k' && r == r'
  {
    assert (k - k') * d == r' - r;
    if k' < k { MulLe(1, k - k', d); }
    if k' > k { MulLe(1, k' - k, d); }
  }

  lemma ModUnique(x: int, d: int, k: int, r: int)
    requires 0 <= r < d && x == d * k + r
    ensures x % d == r && x / d == k
  {
    QuotientUnique(d, k, r, x / d, x % d);
  }

  lemma ScaledMod(b: nat, q: nat, p: nat)
    requires q > 0 && p > 0
    ensures p * q > 0 && (b * p) % (p * q) == (b % q) * p
    ensures 0 <= (b % q) * p <= p * q - p
    ensures (b % q) * p <= b * p
  {
    var r, k := b % q, b / q;
    ScaledParts(b, q, p, r, k);
    ScaledBelow(r, q, p);
    MulLe(r, b, p);
    ModUnique(b * p, p * q, k, r * p);
  }

  lemma ScaledBelow(r: nat, q: nat, p: nat)
    requires r < q && p > 0
    ensures p * q > 0 && 0 <= r * p <= p * q - p
  {
    MulLe(0, r, p);
    MulLe(r + 1, q, p);
    MulLe(1, q, p);
    assert (r + 1) * p == r * p + p && q * p == p * q;
  }

  lemma ScaledParts(b: nat, q: nat, p: nat, r: nat, k: nat)
    requires b == q * k + r
    ensures b * p == (p * q) * k + r * p
  {
    MulAssociative(p, q, k);
    assert b * p == (q * k) * p + r * p;
  }

  /** What `b << i` keeps of seven bits in a `bits`-wide word: a multiple of 2^i that
      leaves room below for everything read so far. */
  lemma ShiftedBits(b: nat, bits: nat, i: nat)
    requires i < bits && b < 128
    ensures var top := if i + 7 < bits then i + 7 else bits;
            0 <= (b * Pow(2, i)) % Pow(2, bits) <= Pow(2, top) - Pow(2, i)
  {
    PowAdd(2, i, bits - i);
    SevenBitsMore(i);
    ScaledMod(b, Pow(2, bits - i), Pow(2, i));
    MulLe(b, 127, Pow(2, i));
  }

  lemma {:induction false} VarintLoopBound(avail: seq<byte>, bits: nat, i: nat, acc: nat)
    requires acc < Pow(2, if i < bits then i else bits)
    ensures var d := VarintLoop(avail, bits, i, acc); d.result.Some? ==> d.result.value < Pow(2, bits)
    decreases if i < bits then bits - i else 0
  {
    if i < bits && avail != [] {
      ShiftedBits(avail[0] % 128, bits, i);
      var acc' := acc + ((avail[0] % 128) * Pow(2, i)) % Pow(2, bits);
      PowMonotone(2, if i + 7 < bits then i + 7 else bits, bits);
      VarintLoopBound(avail[1..], bits, i + 7, acc');
    }
  }

  /** readUint32 / readUint64 from the start. */
  function VarintRead(avail: seq<byte>, bits: nat): (d: Decoded<nat>)
    ensures d.consumed <= |avail|
    ensures d.result.Some? ==> d.result.value < Pow(2, bits)
  {
    if bits > 0 then
      VarintLoopBound(avail, bits, 0, 0);
      VarintLoop(avail, bits, 0, 0)
    else Decoded(Some(0), 0)
  }

  /** The reader takes bytes up to the first with the high bit clear, but at most `need`, and
      fails exactly when the input ends before. */
  predicate Takes(avail: seq<byte>, d: Decoded<nat>, need: nat)
    requires d.consumed <= |avail|
  {
    d.consumed <= need && (forall j :: 0 <= j < d.consumed - 1 ==> avail[j] >= 128) &&
    if d.result.None? then d.consumed == |avail| < need && (forall j :: 0 <= j < |avail| ==> avail[j] >= 128)
    else d.consumed == need || (d.consumed > 0 && avail[d.consumed - 1] < 128)
  }

  lemma TakesOneMore(avail: seq<byte>, d: Decoded<nat>, need: nat)
    requires avail != [] && avail[0] >= 128 && d.consumed < |avail| && Takes(avail[1..], d, need)
    ensures Takes(avail, Decoded(d.result, d.consumed + 1), need + 1)
  {
    assert forall j :: 0 < j < |avail| ==> avail[j] == avail[1..][j - 1];
  }

  lemma {:induction false} VarintLoopTakes(avail: seq<byte>, bits: nat, i: nat, acc: nat)
    ensures Takes(avail, VarintLoop(avail, bits, i, acc), if i < bits then (bits - i + 6) / 7 else 0)
    decreases if i < bits then bits - i else 0
  {
    if i < bits && avail != [] && avail[0] >= 128 {
      var acc' := acc + ((avail[0] % 128) * Pow(2, i)) % Pow(2, bits);
      hide Pow;
      VarintLoopTakes(avail[1..], bits, i + 7, acc');
      TakesOneMore(avail, VarintLoop(avail[1..], bits, i + 7, acc'), if i + 7 < bits then (bits - i - 1) / 7 else 0);
    }
  }

  /** What it makes of the bytes from shift i on. */
  lemma {:induction false} VarintLoopMeans(avail: seq<byte>, bits: nat, i: nat, acc: nat) returns (k: int)
    ensures var d := VarintLoop(avail, bits, i, acc);
            d.result.Some? ==> acc + Leb(avail[..d.consumed]) * Pow(2, i) == d.result.value + k * Pow(2, bits)
    decreases if i < bits then bits - i else 0
  {
    k := 0;
    if i < bits && avail != [] {
      var b, p, m := avail[0] % 128, Pow(2, i), Pow(2, bits);
      var d := VarintLoop(avail, bits, i, acc);
      k := Quotient(b, p, m);
      hide Pow;
      if avail[0] < 128 {
        assert avail[..1][1..] == [];
        assert Leb(avail[..1]) == b;
      } else {
        var acc' := acc + (b * p) % m;
        var later := VarintLoopMeans(avail[1..], bits, i + 7, acc');
        var rest := avail[1..][..d.consumed - 1];
        assert avail[..d.consumed][1..] == rest;
        SevenBitsMore(i);
        Shifted(b, Leb(rest), p);
        if d.result.Some? {
          AddParts(acc, b * p, acc', Leb(rest) * (128 * p), d.result.value, k, later, m);
        }
        k := k + later;
      }
    }
  }

  lemma Shifted(b: nat, rest: nat, p: nat)
    ensures (b + 128 * rest) * p == b * p + rest * (128 * p)
  {
  }

  lemma Quotient(b: nat, p: nat, m: nat) returns (k: int)
    requires m > 0
    ensures b * p >= 0 && b * p == (b * p) % m + k * m
  {
    MulLe(0, b, p);
    var x := b * p;
    k := x / m;
    assert x == m * k + x % m;
  }

  lemma AddParts(acc: int, low: int, acc': int, high: int, value: int, k: int, later: int, m: int)
    requires acc + low == acc' + k * m && acc' + high == value + later * m
    ensures acc + (low + high) == value + (k + later) * m
  {
  }

  lemma TimesOne(v: int, one: int, r: int, k: int, m: int)
    requires one == 1 && 0 + v * one == r + k * m
    ensures v == m * k + r
  {
  }

  /** readUint32 / readUint64 on any input: they take the bytes up to the first with the high
      bit clear, or as many as the word has started groups of seven bits, and fail exactly
      when the input ends before; the value is what those bytes stand for, cut to the word. */
  lemma VarintReadMeans(avail: seq<byte>, bits: nat)
    requires bits > 0
    ensures Takes(avail, VarintRead(avail, bits), (bits + 6) / 7)
    ensures var d := VarintRead(avail, bits); d.result.Some? ==> d.result.value == Leb(avail[..d.consumed]) % Pow(2, bits)
  {
    VarintLoopTakes(avail, bits, 0, 0);
    var d := VarintRead(avail, bits);
    var k := VarintLoopMeans(avail, bits, 0, 0);
    assert Pow(2, 0) == 1;
    if d.result.Some? {
      var m := Pow(2, bits);
      hide Pow;
      hide Takes;
      TimesOne(Leb(avail[..d.consumed]), Pow(2, 0), d.result.value, k, m);
      ModUnique(Leb(avail[..d.consumed]), m, k, d.result.value);
    }
  }

  lemma VarintRoundTrip(v: nat, rest: seq<byte>, bits: nat)
    requires 0 < bits && v < Pow(2, bits)
    ensures VarintRead(VarintBytes(v) + rest, bits) == Decoded(Some(v), |VarintBytes(v)|)
  {
    assert v * Pow(2, 0) == v;
    VarintLoopReads(v, rest, bits, 0, 0);
  }

  // ---------- zigzag (the "Signed Integers" mapping of Protocol Buffers) ----------

  /** EncodeZigzag32/64 on `bits`-wide words. Negating the minimum is undefined in
      the source, so it is outside the contract; `v * 2` is taken modulo the word. */
  function ZigzagEncode(v: int, bits: nat): (u: int)
    requires -Pow(2, bits) < 2 * v < Pow(2, bits)
    ensures 0 <= u < Pow(2, bits)
  {
    if v < 0 then ((-v) * 2 - 1) % Pow(2, bits) else (v * 2) % Pow(2, bits)
  }

  /** (v >> 1) ^ -(v & 1), reinterpreted as a signed word: the mask is zero or all
      ones, and xor with all ones is complement. */
  function ZigzagDecode(u: nat, bits: nat): int
    requires u < Pow(2, bits)
  {
    var mask := if u % 2 == 1 then Pow(2, bits) - 1 else 0;
    var x := if mask == 0 then u / 2 else mask - u / 2;
    if 2 * x >= Pow(2, bits) then x - Pow(2, bits) else x
  }

  lemma PowTwoEven(bits: nat)
    requires bits > 0
    ensures Pow(2, bits) % 2 == 0 && Pow(2, bits) >= 2
  {
    assert Pow(2, bits) == 2 * Pow(2, bits - 1);
  }

  lemma ZigzagDecodeEncode(v: int, bits: nat)
    requires bits > 0 && -Pow(2, bits) < 2 * v < Pow(2, bits)
    ensures ZigzagDecode(ZigzagEncode(v, bits), bits) == v
  {
    PowTwoEven(bits);
    if v < 0 {
      SmallMod((-v) * 2 - 1, Pow(2, bits));
    } else {
      SmallMod(v * 2, Pow(2, bits));
    }
  }

  /** Numbers from zero up take the even code words, those below zero the odd ones. */
  lemma ZigzagMeans(v: int, u: nat, bits: nat)
    requires bits > 0 && -Pow(2, bits) < 2 * v < Pow(2, bits) && u < Pow(2, bits)
    ensures ZigzagEncode(v, bits) == if v >= 0 then 2 * v else -2 * v - 1
    ensures ZigzagDecode(u, bits) == if u % 2 == 0 then u / 2 else -((u + 1) / 2)
  {
    PowTwoEven(bits);
    if v < 0 {
      SmallMod((-v) * 2 - 1, Pow(2, bits));
    } else {
      SmallMod(v * 2, Pow(2, bits));
    }
  }

  /** The only code word whose value cannot be encoded again is the one that decodes
      to the minimum integer. */
  lemma ZigzagEncodeDecode(u: nat, bits: nat)
    requires bits > 0 && u < Pow(2, bits)
    ensures 2 * ZigzagDecode(u, bits) == -Pow(2, bits) <==> u == Pow(2, bits) - 1
    ensures u != Pow(2, bits) - 1 ==>
              -Pow(2, bits) < 2 * ZigzagDecode(u, bits) < Pow(2, bits) && ZigzagEncode(ZigzagDecode(u, bits), bits) == u
  {
    PowTwoEven(bits);
    var v := ZigzagDecode(u, bits);
    if u % 2 == 1 {
      assert v == -(u / 2) - 1;
      if u != Pow(2, bits) - 1 {
        SmallMod((-v) * 2 - 1, Pow(2, bits));
      }
    } else {
      SmallMod(v * 2, Pow(2, bits));
    }
  }
}

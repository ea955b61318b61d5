/** The arithmetic of ByteArray's node chain: where a position lies, how much
    addCapacity allocates, and overwriting part of a byte sequence. */
module Chain {
  import opened Codec

  // ---------- positions ----------

  /** The node a position lies in, by walking from the root, */
  function NodeOf(base: nat, pos: nat): (k: nat)
    requires base > 0
  {
    if pos < base then 0 else 1 + NodeOf(base, pos - base)
  }

  /** and its offset there. */
  function OffsetOf(base: nat, pos: nat): (off: nat)
    requires base > 0
    ensures off < base
  {
    if pos < base then pos else OffsetOf(base, pos - base)
  }

  /** The walk ends where division says. */
  lemma {:induction false} WalkIsDivision(base: nat, pos: nat)
    requires base > 0
    ensures NodeOf(base, pos) == pos / base && OffsetOf(base, pos) == pos % base
  {
    if pos < base {
      ModUnique(pos, base, 0, pos);
    } else {
      WalkIsDivision(base, pos - base);
      var k, r := (pos - base) / base, (pos - base) % base;
      assert pos == base * (k + 1) + r;
      ModUnique(pos, base, k + 1, r);
    }
  }

  /** n bytes further on, not beyond the end of the node. */
  lemma {:induction false} Advance(base: nat, pos: nat, n: nat)
    requires base > 0 && OffsetOf(base, pos) + n <= base
    ensures OffsetOf(base, pos) + n < base ==>
              NodeOf(base, pos + n) == NodeOf(base, pos) && OffsetOf(base, pos + n) == OffsetOf(base, pos) + n
    ensures OffsetOf(base, pos) + n == base ==>
              NodeOf(base, pos + n) == NodeOf(base, pos) + 1 && OffsetOf(base, pos + n) == 0
  {
    if pos >= base {
      Advance(base, pos - base, n);
    }
  }

  /** Another offset in the node of pos. */
  lemma {:induction false} SameNode(base: nat, pos: nat, off: nat)
    requires base > 0 && off < base
    ensures OffsetOf(base, pos) <= pos
    ensures var q := pos - OffsetOf(base, pos) + off; NodeOf(base, q) == NodeOf(base, pos) && OffsetOf(base, q) == off
  {
    if pos >= base {
      SameNode(base, pos - base, off);
    }
  }

  lemma Walked(base: nat, pos: nat)
    requires base > 0
    ensures pos - OffsetOf(base, pos) == NodeOf(base, pos) * base
  {
    WalkIsDivision(base, pos);
    ShortageParts(base, pos);
  }

  /** Replacing the offset of p by that of q gives q exactly if they share a node. */
  lemma SameNodeIff(base: nat, p: nat, q: nat)
    requires base > 0
    ensures p - OffsetOf(base, p) + OffsetOf(base, q) == q <==> NodeOf(base, p) == NodeOf(base, q)
  {
    Walked(base, p);
    Walked(base, q);
    if NodeOf(base, p) < NodeOf(base, q) { MulLe(NodeOf(base, p) + 1, NodeOf(base, q), base); }
    if NodeOf(base, q) < NodeOf(base, p) { MulLe(NodeOf(base, q) + 1, NodeOf(base, p), base); }
  }

  // ---------- addCapacity ----------

  lemma ShortageParts(base: nat, shortage: nat)
    requires base > 0
    ensures shortage == (shortage / base) * base + shortage % base
    ensures 0 <= shortage / base && 0 <= shortage % base < base
  {
    if shortage / base < 0 { MulLe(shortage / base, -1, base); }
  }

  /** How many nodes addCapacity(need) allocates when `cap` bytes are left: the
      remainder is compared with the old capacity. */
  function NewNodes(base: nat, cap: nat, need: nat): (count: int)
    requires base > 0
    ensures count >= 0
  {
    if need == 0 || cap >= need then 0
    else
      var shortage := need - cap;
      ShortageParts(base, shortage);
      shortage / base + (if shortage % base > cap then 1 else 0)
  }

  /** The requests that addCapacity meets. */
  predicate Suffices(base: nat, cap: nat, need: nat)
    requires base > 0
  {
    need <= cap || (need - cap) % base == 0 || (need - cap) % base > cap
  }

  /** addCapacity leaves enough room exactly for the requests of Suffices, is
      otherwise one node short, and never adds a node it could do without. */
  lemma AddCapacityExact(base: nat, cap: nat, need: nat)
    requires base > 0
    ensures Suffices(base, cap, need) <==> need <= cap + NewNodes(base, cap, need) * base
    ensures need <= cap + (NewNodes(base, cap, need) + 1) * base
    ensures NewNodes(base, cap, need) > 0 ==> cap + (NewNodes(base, cap, need) - 1) * base < need
  {
    if need > cap {
      var shortage := need - cap;
      ShortageParts(base, shortage);
      var q := shortage / base;
      assert (q + 1) * base == q * base + base;
      assert (q - 1) * base == q * base - base;
      assert (q + 2) * base == q * base + 2 * base;
    }
  }

  lemma SufficesAlways(base: nat, cap: nat, need: nat)
    requires base == 1 || (base > 0 && cap == 0)
    ensures Suffices(base, cap, need)
  {
  }

  /** A write of 10000 bytes to two empty nodes of 4096: the remainder 1808 does not
      exceed the 8192 bytes left, so no node is added. */
  lemma AddCapacityFallsShort()
    ensures !Suffices(4096, 8192, 10000) && NewNodes(4096, 8192, 10000) == 0
  {
  }

  /** The capacity after addCapacity(need) at position pos. */
  function Grow(base: nat, pos: nat, cap: nat, need: nat): (c: int)
    requires base > 0 && pos <= cap
    ensures c >= cap
    ensures need <= cap - pos ==> c == cap
    ensures Suffices(base, cap - pos, need) <==> pos + need <= c
  {
    AddCapacityExact(base, cap - pos, need);
    MulLe(0, NewNodes(base, cap - pos, need), base);
    cap + NewNodes(base, cap - pos, need) * base
  }

  // ---------- overwriting ----------

  /** m with b laid over it at p, extended if b reaches beyond the end. */
  function Overwrite(m: seq<byte>, p: nat, b: seq<byte>): (r: seq<byte>)
    requires p <= |m|
    ensures |r| == if p + |b| <= |m| then |m| else p + |b|
  {
    seq(if p + |b| <= |m| then |m| else p + |b|,
        i requires 0 <= i && (i < |m| || i < p + |b|) => if p <= i < p + |b| then b[i - p] else m[i])
  }

  lemma Join(m: seq<byte>, a: nat, b: nat, c: nat)
    requires a <= b <= c <= |m|
    ensures m[a..b] + m[b..c] == m[a..c]
  {
  }

  lemma SliceOfSlice(m: seq<byte>, a: nat, b: nat, n: nat)
    requires a + n <= b <= |m|
    ensures m[a..b][..n] == m[a..a + n]
  {
  }

  /** Overwriting run after run is overwriting once. */
  lemma OverwriteRun(m: seq<byte>, p: nat, buf: seq<byte>, done: nat, q: nat, n: nat)
    requires p <= |m| && q == p + done && done + n <= |buf|
    ensures Overwrite(Overwrite(m, p, buf[..done]), q, buf[done..done + n]) == Overwrite(m, p, buf[..done + n])
  {
  }

  lemma OverwriteNothing(m: seq<byte>, p: nat)
    requires p <= |m|
    ensures Overwrite(m, p, []) == m
  {
  }

  lemma OverwriteRead(m: seq<byte>, p: nat, b: seq<byte>)
    requires p <= |m|
    ensures Overwrite(m, p, b)[p..] == b + Overwrite(m, p, b)[p + |b|..]
  {
  }

  /** Fresh memory behind m does not matter to what is laid over m. */
  lemma OverwritePrefix(m: seq<byte>, grown: seq<byte>, p: nat, b: seq<byte>)
    requires m <= grown && p <= |m| && p + |b| <= |grown|
    ensures Overwrite(m, p, b) <= Overwrite(grown, p, b)
  {
  }

  /** Nor do the bytes behind the part of m in use. */
  lemma OverwriteUsed(m: seq<byte>, used: nat, p: nat, b: seq<byte>, result: seq<byte>)
    requires p <= used <= |m| && Overwrite(m, p, b) <= result
    ensures result[..if used < p + |b| then p + |b| else used] == Overwrite(m[..used], p, b)
  {
  }

  lemma MiddleSlice(m: seq<byte>, a: seq<byte>, c: seq<byte>, z: seq<byte>, pos: nat, to: nat)
    requires |a| <= pos <= to <= |a| + |c| && m == a + c + z
    ensures m[pos..to] == c[pos - |a|..pos - |a| + (to - pos)]
  {
  }

  /** Laying b inside the middle of three parts changes that part only. */
  lemma OverwriteMiddle(m: seq<byte>, a: seq<byte>, c: seq<byte>, z: seq<byte>, pos: nat, b: seq<byte>)
    requires |a| <= pos && pos - |a| + |b| <= |c| && m == a + c + z
    ensures Overwrite(m, pos, b) == a + Overwrite(c, pos - |a|, b) + z
  {
  }

  // ---------- the array as a flat sequence with a position ----------

  /** What a ByteArray stands for: the bytes in use, a position among them, and the
      room there is without allocating. */
  datatype Tape = Tape(content: seq<byte>, pos: nat, cap: nat)
  {
    predicate Sane() { pos <= |content| <= cap }

    function Readable(): seq<byte>
      requires Sane()
    {
      content[pos..]
    }
  }

  predicate Fits(base: nat, v: Tape, bs: seq<byte>)
    requires base > 0 && v.Sane()
  {
    Suffices(base, v.cap - v.pos, |bs|)
  }

  /** write(bs) on the flat sequence. */
  function Written(base: nat, v: Tape, bs: seq<byte>): (w: Tape)
    requires base > 0 && v.Sane() && Fits(base, v, bs)
    ensures w.Sane() && w.pos == v.pos + |bs|
  {
    Tape(Overwrite(v.content, v.pos, bs), v.pos + |bs|, Grow(base, v.pos, v.cap, |bs|))
  }

  /** Every addCapacity call suffices while these runs are written one after the other. */
  predicate FitsAll(base: nat, v: Tape, runs: seq<seq<byte>>)
    requires base > 0 && v.Sane()
    decreases |runs|
  {
    runs == [] || (Fits(base, v, runs[0]) && FitsAll(base, Written(base, v, runs[0]), runs[1..]))
  }

  function WrittenAll(base: nat, v: Tape, runs: seq<seq<byte>>): (w: Tape)
    requires base > 0 && v.Sane() && FitsAll(base, v, runs)
    ensures w.Sane() && w.cap >= v.cap
    decreases |runs|
  {
    if runs == [] then v else WrittenAll(base, Written(base, v, runs[0]), runs[1..])
  }

  function Concat(runs: seq<seq<byte>>): (bs: seq<byte>)
    ensures runs != [] ==> |bs| >= |runs[0]|
  {
    if runs == [] then [] else runs[0] + Concat(runs[1..])
  }

  /** Writing runs one after the other is writing them all at once. */
  lemma {:induction false} WrittenAllAtOnce(base: nat, v: Tape, runs: seq<seq<byte>>)
    requires base > 0 && v.Sane() && FitsAll(base, v, runs)
    ensures WrittenAll(base, v, runs).content == Overwrite(v.content, v.pos, Concat(runs))
    ensures WrittenAll(base, v, runs).pos == v.pos + |Concat(runs)|
    decreases |runs|
  {
    if runs == [] {
      OverwriteNothing(v.content, v.pos);
    } else {
      WrittenAllAtOnce(base, Written(base, v, runs[0]), runs[1..]);
      OverwriteTwo(v.content, v.pos, runs[0], Concat(runs[1..]));
    }
  }

  lemma TwoRuns(base: nat, v: Tape, a: seq<byte>, b: seq<byte>)
    requires base > 0 && v.Sane() && FitsAll(base, v, [a, b])
    ensures Fits(base, v, a) && Fits(base, Written(base, v, a), b)
    ensures WrittenAll(base, v, [a, b]) == Written(base, Written(base, v, a), b)
  {
    assert [a, b][1..] == [b] && [b][1..] == [];
    var w := Written(base, v, a);
    assert WrittenAll(base, w, [b]) == WrittenAll(base, Written(base, w, b), []);
  }

  lemma OverwriteTwo(m: seq<byte>, p: nat, a: seq<byte>, b: seq<byte>)
    requires p <= |m|
    ensures Overwrite(Overwrite(m, p, a), p + |a|, b) == Overwrite(m, p, a + b)
  {
  }

  lemma {:induction false} WrittenInParts(base: nat, v: Tape, a: seq<seq<byte>>, b: seq<seq<byte>>)
    requires base > 0 && v.Sane() && FitsAll(base, v, a + b)
    ensures FitsAll(base, v, a) && FitsAll(base, WrittenAll(base, v, a), b)
    ensures WrittenAll(base, v, a + b) == WrittenAll(base, WrittenAll(base, v, a), b)
    decreases |a|
  {
    if a == [] {
      assert a + b == b;
    } else {
      assert (a + b)[1..] == a[1..] + b;
      WrittenInParts(base, Written(base, v, a[0]), a[1..], b);
    }
  }

  lemma {:induction false} UnitNodesFitAll(v: Tape, runs: seq<seq<byte>>)
    requires v.Sane()
    ensures FitsAll(1, v, runs)
    decreases |runs|
  {
    if runs != [] {
      SufficesAlways(1, v.cap - v.pos, |runs[0]|);
      UnitNodesFitAll(Written(1, v, runs[0]), runs[1..]);
    }
  }

  // ---------- nodes and the flat sequence ----------

  /** The bytes of all nodes, one after the other. */
  function Flat(chunks: seq<seq<byte>>): (m: seq<byte>)
  {
    if chunks == [] then [] else chunks[0] + Flat(chunks[1..])
  }

  lemma FlatOne(c: seq<byte>)
    ensures Flat([c]) == c
  {
    FlatCons(c, []);
  }

  lemma FlatCons(head: seq<byte>, tail: seq<seq<byte>>)
    ensures Flat([head] + tail) == head + Flat(tail)
  {
    assert ([head] + tail)[1..] == tail;
  }

  predicate Equal(base: nat, chunks: seq<seq<byte>>)
  {
    forall c <- chunks :: |c| == base
  }

  lemma Times(n: nat, base: nat)
    ensures (n + 1) * base == n * base + base
  {
  }

  lemma {:induction false} FlatLength(base: nat, chunks: seq<seq<byte>>)
    requires Equal(base, chunks)
    ensures |Flat(chunks)| == |chunks| * base
  {
    if chunks != [] {
      FlatLength(base, chunks[1..]);
      Times(|chunks| - 1, base);
    }
  }

  lemma {:induction false} FlatConcat(a: seq<seq<byte>>, b: seq<seq<byte>>)
    ensures Flat(a + b) == Flat(a) + Flat(b)
  {
    if a == [] {
      assert a + b == b;
    } else {
      var tail := a[1..] + b;
      assert a + b == [a[0]] + tail;
      FlatCons(a[0], tail);
      FlatConcat(a[1..], b);
    }
  }

  lemma FlatAppend(chunks: seq<seq<byte>>, c: seq<byte>)
    ensures Flat(chunks + [c]) == Flat(chunks) + c
  {
    FlatConcat(chunks, [c]);
    assert [c][1..] == [] && Flat([]) == [];
  }

  lemma FlatAround(chunks: seq<seq<byte>>, k: nat)
    requires k < |chunks|
    ensures Flat(chunks) == Flat(chunks[..k]) + chunks[k] + Flat(chunks[k + 1..])
  {
    assert chunks == chunks[..k] + chunks[k..];
    FlatConcat(chunks[..k], chunks[k..]);
    assert chunks[k..][1..] == chunks[k + 1..];
  }

  /** The nodes before a position's node hold the bytes before its offset. */
  lemma {:induction false} Locate(base: nat, chunks: seq<seq<byte>>, pos: nat)
    requires base > 0 && Equal(base, chunks) && NodeOf(base, pos) < |chunks|
    ensures |Flat(chunks[..NodeOf(base, pos)])| + OffsetOf(base, pos) == pos
  {
    if pos >= base {
      Locate(base, chunks[1..], pos - base);
      var k := NodeOf(base, pos);
      assert chunks[..k][1..] == chunks[1..][..k - 1];
    }
  }

  /** A position inside the flat sequence lies in one of the nodes; its end in none. */
  lemma {:induction false} InChain(base: nat, chunks: seq<seq<byte>>, pos: nat)
    requires base > 0 && Equal(base, chunks) && pos <= |Flat(chunks)|
    ensures NodeOf(base, pos) <= |chunks|
    ensures NodeOf(base, pos) < |chunks| <==> pos < |Flat(chunks)|
  {
    if chunks != [] && pos >= base {
      InChain(base, chunks[1..], pos - base);
    }
  }

  /** A run inside one node is a run of the flat sequence. */
  lemma FlatAt(base: nat, chunks: seq<seq<byte>>, pos: nat, to: nat)
    requires base > 0 && Equal(base, chunks) && NodeOf(base, pos) < |chunks|
    requires pos <= to && OffsetOf(base, pos) + (to - pos) <= base
    ensures to <= |Flat(chunks)|
    ensures Flat(chunks)[pos..to] == chunks[NodeOf(base, pos)][OffsetOf(base, pos)..OffsetOf(base, pos) + (to - pos)]
  {
    Locate(base, chunks, pos);
    var k := NodeOf(base, pos);
    FlatAround(chunks, k);
    MiddleSlice(Flat(chunks), Flat(chunks[..k]), chunks[k], Flat(chunks[k + 1..]), pos, to);
  }

  /** Laying bytes inside one node lays them into the flat sequence. */
  lemma FlatUpdate(base: nat, chunks: seq<seq<byte>>, pos: nat, b: seq<byte>)
    requires base > 0 && Equal(base, chunks) && NodeOf(base, pos) < |chunks| && OffsetOf(base, pos) + |b| <= base
    ensures pos + |b| <= |Flat(chunks)|
    ensures var k := NodeOf(base, pos);
            Flat(chunks[k := Overwrite(chunks[k], OffsetOf(base, pos), b)]) == Overwrite(Flat(chunks), pos, b)
  {
    Locate(base, chunks, pos);
    var k, off := NodeOf(base, pos), OffsetOf(base, pos);
    var c := Overwrite(chunks[k], off, b);
    FlatReplace(chunks, k, c);
    FlatAround(chunks, k);
    OverwriteMiddle(Flat(chunks), Flat(chunks[..k]), chunks[k], Flat(chunks[k + 1..]), pos, b);
  }

  lemma FlatReplace(chunks: seq<seq<byte>>, k: nat, c: seq<byte>)
    requires k < |chunks|
    ensures Flat(chunks[k := c]) == Flat(chunks[..k]) + c + Flat(chunks[k + 1..])
  {
    FlatAround(chunks[k := c], k);
    assert chunks[k := c][..k] == chunks[..k];
    assert chunks[k := c][k + 1..] == chunks[k + 1..];
  }
}

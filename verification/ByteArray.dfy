/** ByteArray: a byte stream over a chain of equal nodes, with a cached cursor. */
module ByteArrays {
  import opened Codec
  import opened Wire
  import opened Chain

  class Node {
    const ptr: array<byte>
    const size: nat
    var next: Node?
    ghost const index: nat   // its place in the chain

    constructor (s: nat, ghost i: nat)
      ensures fresh(ptr) && ptr.Length == size == s && next == null && index == i
    {
      index := i;
      ptr := new byte[s];
      size := s;
      next := null;
    }
  }

  /** struct iovec: a stretch of memory handed to the kernel. */
  datatype IoVec = IoVec(base: array<byte>, off: nat, len: nat)

  function Min(a: nat, b: nat): nat { if a < b then a else b }

  function Max(a: nat, b: nat): nat { if a < b then b else a }

  class ByteArray {
    const baseSize: nat
    const hostOrder: Endian   // FATDOG_BYTE_ORDER
    var position: nat
    var capacity: nat
    var size: nat
    var endian: Endian
    var root: Node
    var cur: Node?

    ghost var nodes: seq<Node>      // the chain from the root
    ghost var chunks: seq<seq<byte>> // what each of them holds
    ghost var owner: map<array<byte>, nat>   // whose memory an array is, so that no two nodes share one
    ghost var Repr: set<object>      // the nodes and their memory

    ghost predicate ChainValid()
      reads this`root, this`nodes, this`chunks, this`owner, this`capacity, this`Repr, Repr
    {
      && this !in Repr
      && 0 < baseSize
      && |nodes| > 0 && root == nodes[0]
      && |chunks| == |nodes| && Equal(baseSize, chunks)
      && capacity == |Mem()|
      && (forall i {:trigger nodes[i]} | 0 <= i < |nodes| ::
            nodes[i].index == i && nodes[i] in Repr &&
            nodes[i].ptr in Repr && nodes[i].ptr.Length == nodes[i].size == baseSize)
      && (forall i {:trigger nodes[i].next} | 0 <= i < |nodes| :: nodes[i].next == NodeAt(i + 1))
      && (forall i {:trigger chunks[i]} | 0 <= i < |nodes| :: nodes[i].ptr[..] == chunks[i])
      && (forall i {:trigger nodes[i].ptr} | 0 <= i < |nodes| :: nodes[i].ptr in owner && owner[nodes[i].ptr] == i)
    }

    /** All bytes of all nodes, in order. */
    ghost function Mem(): seq<byte>
      reads this`chunks
    {
      Flat(chunks)
    }

    /** The node that i steps from the root reach; null past the end. */
    ghost function NodeAt(i: int): Node?
      reads this`nodes
    {
      if 0 <= i < |nodes| then nodes[i] else null
    }

    /** The cached cursor agrees with a walk from the root. */
    ghost predicate CursorValid()
      requires 0 < baseSize
      reads this`position, this`capacity, this`cur, this`nodes
    {
      position <= capacity && cur == NodeAt(NodeOf(baseSize, position))
    }

    ghost predicate Valid()
      reads this, Repr
      ensures Valid() ==> this !in Repr && 0 < baseSize && position <= size <= capacity == |Mem()|
    {
      ChainValid() && CursorValid() && position <= size <= capacity
    }

    /** The flat byte sequence with a position that the array stands for. */
    ghost function View(): (v: Tape)
      requires position <= size <= capacity == |Mem()|
      reads this`position, this`size, this`capacity, this`chunks
      ensures v.Sane()
    {
      Tape(Mem()[..size], position, capacity)
    }

    /** The capacity is the base size times the number of nodes, and m_cur is the node
        that position / base steps from the root reach: null exactly at full capacity,
        and otherwise the one that holds the current byte. */
    lemma CursorMeaning()
      requires Valid()
      ensures capacity == |nodes| * baseSize
      ensures cur == NodeAt(position / baseSize)
      ensures cur == null <==> position == capacity
      ensures cur != null ==>
                cur.ptr.Length == baseSize > position % baseSize >= 0 &&
                cur.ptr[position % baseSize] == Mem()[position]
    {
      FlatLength(baseSize, chunks);
      WalkIsDivision(baseSize, position);
      Here();
      if cur != null {
        NodeSlice(position, position + 1);
        var k, r := NodeOf(baseSize, position), OffsetOf(baseSize, position);
        assert nodes[k].ptr[r..r + 1][0] == Mem()[position..position + 1][0];
      }
    }

    /** Unless the position is the capacity, the cursor is the node of the position. */
    lemma Here()
      requires ChainValid() && CursorValid()
      ensures position % baseSize == OffsetOf(baseSize, position)
      ensures cur == null <==> position == capacity
      ensures cur != null ==> cur.size == baseSize && AtNode(NodeOf(baseSize, position), OffsetOf(baseSize, position))
    {
      WalkIsDivision(baseSize, position);
      InChain(baseSize, chunks, position);
    }

    /** In a copying loop: the cursor is node k and the next byte is at offset off. */
    ghost predicate AtNode(k: nat, off: nat)
      requires 0 < baseSize
      reads this`position, this`cur, this`nodes
    {
      k < |nodes| && cur == nodes[k] && k == NodeOf(baseSize, position) && off == OffsetOf(baseSize, position)
    }

    /** One turn of a copying loop at position `at`: n bytes of node c, then on to the
        next node if this one ends. */
    lemma Turn(c: Node?, at: nat, off: nat, to: nat)
      requires ChainValid() && at < to <= capacity && off + (to - at) <= baseSize
      requires c == NodeAt(NodeOf(baseSize, at)) && off == OffsetOf(baseSize, at)
      ensures c != null && c.size == c.ptr.Length == baseSize
      ensures c.ptr[off..off + (to - at)] == Mem()[at..to]
      ensures NodeAt(NodeOf(baseSize, to)) == if off + (to - at) == baseSize then c.next else c
      ensures off + (to - at) == baseSize ==> OffsetOf(baseSize, to) == 0
      ensures to < capacity ==>
                NodeAt(NodeOf(baseSize, to)) != null && NodeAt(NodeOf(baseSize, to)).size == baseSize
    {
      InChain(baseSize, chunks, at);
      InChain(baseSize, chunks, to);
      Advance(baseSize, at, to - at);
      NodeSlice(at, to);
    }

    lemma NodeSlice(at: nat, to: nat)
      requires ChainValid() && at <= to && NodeOf(baseSize, at) < |nodes| && OffsetOf(baseSize, at) + (to - at) <= baseSize
      ensures to <= |Mem()|
      ensures var k, off := NodeOf(baseSize, at), OffsetOf(baseSize, at);
              nodes[k].ptr[off..off + (to - at)] == Mem()[at..to]
    {
      FlatAt(baseSize, chunks, at, to);
      var k, off := NodeOf(baseSize, at), OffsetOf(baseSize, at);
      assert nodes[k].ptr[off..off + (to - at)] == chunks[k][off..off + (to - at)];
    }

    constructor (base: nat, host: Endian)
      requires base > 0
      ensures Valid() && fresh(Repr)
      ensures baseSize == base && hostOrder == host && endian == Big
      ensures position == size == 0 && capacity == base && |nodes| == 1
    {
      baseSize := base;
      hostOrder := host;
      position, size, capacity := 0, 0, base;
      endian := Big;
      var n := new Node(base, 0);
      root, cur := n, n;
      nodes, chunks := [n], [n.ptr[..]];
      owner := map[n.ptr := 0];
      Repr := {n, n.ptr};
      new;
      FlatAppend([], n.ptr[..]);
      assert [] + [n.ptr[..]] == chunks;
    }

    method SetIsLittleEndian(val: bool)
      requires Valid()
      modifies this`endian
      ensures Valid() && endian == if val then Little else Big
    {
      endian := if val then Little else Big;
    }

    function GetReadSize(): nat
      requires position <= size
      reads this
    {
      size - position
    }

    function GetCapacity(): nat
      requires position <= capacity
      reads this
    {
      capacity - position
    }

    // ---------- the chain ----------

    method AddCapacity(need: nat)
      requires Valid()
      modifies this`nodes, this`chunks, this`owner, this`Repr, this`capacity, this`cur, Repr
      ensures Valid() && fresh(Repr - old(Repr)) && old(Repr) <= Repr
      ensures old(Mem()) <= Mem() && old(nodes) <= nodes
      ensures capacity == Grow(baseSize, position, old(capacity), need)
    {
      hide Flat;
      if need == 0 {
        return;
      }
      var oldCap := GetCapacity();
      if oldCap >= need {
        return;
      }
      var shortage := need - oldCap;
      ShortageParts(baseSize, shortage);
      var count := shortage / baseSize + (if shortage % baseSize > oldCap then 1 else 0);
      assert count == NewNodes(baseSize, oldCap, need);
      var tmp := LastNode();
      var first := AppendNodes(tmp, count);
      InChain(baseSize, old(chunks), position);
      if oldCap == 0 {
        cur := first;
      }
    }

    method LastNode() returns (tmp: Node)
      requires ChainValid()
      ensures tmp == nodes[|nodes| - 1]
    {
      tmp := root;
      ghost var k := 0;
      while tmp.next != null
        invariant 0 <= k < |nodes| && tmp == nodes[k]
        decreases |nodes| - k
      {
        tmp := tmp.next;
        k := k + 1;
      }
    }

    /** The allocating loop of addCapacity. */
    method AppendNodes(last: Node, count: nat) returns (first: Node?)
      requires ChainValid() && |nodes| > 0 && last == nodes[|nodes| - 1]
      modifies last`next, this`nodes, this`chunks, this`owner, this`Repr, this`capacity
      ensures ChainValid() && fresh(Repr - old(Repr)) && old(Repr) <= Repr
      ensures |nodes| == |old(nodes)| + count && old(nodes) <= nodes && old(Mem()) <= Mem()
      ensures first == NodeAt(|old(nodes)|)
      ensures capacity == old(capacity) + count * baseSize
    {
      hide ChainValid;
      hide Flat;
      var tmp := last;
      first := null;
      var i := 0;
      while i < count
        invariant 0 <= i <= count
        invariant ChainValid() && fresh(Repr - old(Repr)) && old(Repr) <= Repr
        invariant |nodes| == |old(nodes)| + i > 0 && tmp == nodes[|nodes| - 1] && (tmp == last || fresh(tmp))
        invariant old(nodes) <= nodes && old(Mem()) <= Mem()
        invariant first == NodeAt(|old(nodes)|)
        invariant capacity == old(capacity) + i * baseSize
      {
        tmp := Append(tmp);
        if first == null {
          first := tmp;
        }
        assert (i + 1) * baseSize == i * baseSize + baseSize;
        i := i + 1;
      }
    }

    /** One turn of it: tmp->next = new Node(m_baseSize). */
    method Append(tmp: Node) returns (n: Node)
      requires ChainValid() && |nodes| > 0 && tmp == nodes[|nodes| - 1]
      modifies tmp`next, this`nodes, this`chunks, this`owner, this`Repr, this`capacity
      ensures ChainValid() && fresh(n) && fresh(n.ptr) && Repr == old(Repr) + {n, n.ptr}
      ensures nodes == old(nodes) + [n] && old(Mem()) <= Mem()
      ensures capacity == old(capacity) + baseSize
    {
      hide Flat;
      hide Equal;
      n := new Node(baseSize, |nodes|);
      tmp.next := n;
      owner := owner[n.ptr := |nodes|];
      nodes := nodes + [n];
      chunks := chunks + [n.ptr[..]];
      capacity := capacity + baseSize;
      Repr := Repr + {n, n.ptr};
      Extended(tmp, n, n.ptr);
    }

    twostate lemma Extended(tmp: Node, new n: Node, new p: array<byte>)
      requires old(ChainValid()) && tmp == old(nodes[|nodes| - 1]) && tmp.next == n
      requires n.index == |old(nodes)| && n.next == null && n.size == n.ptr.Length == baseSize
      requires !old(allocated(n)) && !old(allocated(p)) && p == n.ptr
      requires owner == old(owner)[n.ptr := |old(nodes)|] && root == old(root)
      requires nodes == old(nodes) + [n] && chunks == old(chunks) + [n.ptr[..]]
      requires capacity == old(capacity) + baseSize && Repr == old(Repr) + {n, n.ptr}
      requires forall i {:trigger old(nodes)[i]} :: 0 <= i < |old(nodes)| ==>
                 unchanged(old(nodes)[i].ptr) && (i < |old(nodes)| - 1 ==> unchanged(old(nodes)[i]))
      ensures ChainValid() && old(Mem()) <= Mem()
    {
      FlatAppend(old(chunks), n.ptr[..]);
    }

    /** memcpy into the cursor's node. */
    method Store(off: nat, src: seq<byte>)
      requires ChainValid() && AtNode(NodeOf(baseSize, position), off) && off + |src| <= baseSize
      modifies cur.ptr, this`chunks
      ensures ChainValid()
      ensures position + |src| <= |old(Mem())| && Mem() == Overwrite(old(Mem()), position, src)
    {
      forall j | 0 <= j < |src| {
        cur.ptr[off + j] := src[j];
      }
      assert cur.ptr[..] == Overwrite(old(cur.ptr[..]), off, src);
      FlatUpdate(baseSize, chunks, position, src);
      chunks := chunks[NodeOf(baseSize, position) := cur.ptr[..]];
    }

    /** The end of a turn: move on n bytes, to the next node if this one ends. */
    method Move(off: nat, n: nat)
      requires ChainValid() && CursorValid()
      requires position + n <= capacity && 0 < n && off == OffsetOf(baseSize, position) && off + n <= baseSize
      modifies this`position, this`cur
      ensures CursorValid() && position == old(position) + n
      ensures position < capacity ==> cur != null && cur.size == baseSize
      ensures off + n == baseSize ==> OffsetOf(baseSize, position) == 0
    {
      Turn(cur, position, off, position + n);
      if cur.size == off + n {
        cur := cur.next;
      }
      position := position + n;
    }

    /** One turn of the const read's loop: n bytes of node c, and the node to go on with. */
    method Peek(c: Node, ghost at: nat, ghost to: nat, off: nat, n: nat) returns (bs: seq<byte>, next: Node?)
      requires ChainValid() && to == at + n <= capacity && 0 < n && off + n <= baseSize
      requires c == NodeAt(NodeOf(baseSize, at)) && off == OffsetOf(baseSize, at)
      ensures bs == Mem()[at..to]
      ensures next == NodeAt(NodeOf(baseSize, to))
      ensures off + n == baseSize ==> OffsetOf(baseSize, to) == 0
      ensures to < capacity ==> next != null && next.size == baseSize
    {
      Turn(c, at, off, to);
      bs := c.ptr[off..off + n];
      next := if c.size == off + n then c.next else c;
    }

    /** One turn of write's loop. */
    method Put(off: nat, src: seq<byte>)
      requires ChainValid() && CursorValid() && |src| > 0
      requires position + |src| <= capacity && off == OffsetOf(baseSize, position) && off + |src| <= baseSize
      modifies this`chunks, this`position, this`cur, Repr
      ensures ChainValid() && CursorValid() && position == old(position) + |src|
      ensures Mem() == Overwrite(old(Mem()), old(position), src)
      ensures position < capacity ==> cur != null && cur.size == baseSize
      ensures off + |src| == baseSize ==> OffsetOf(baseSize, position) == 0
    {
      Here();
      Store(off, src);
      Move(off, |src|);
    }

    /** One turn of read's loop. */
    method Take(off: nat, n: nat) returns (bs: seq<byte>)
      requires ChainValid() && CursorValid() && n > 0
      requires position + n <= capacity && off == OffsetOf(baseSize, position) && off + n <= baseSize
      modifies this`position, this`cur
      ensures CursorValid() && position == old(position) + n <= |Mem()|
      ensures bs == Mem()[old(position)..position]
      ensures position < capacity ==> cur != null && cur.size == baseSize
      ensures off + n == baseSize ==> OffsetOf(baseSize, position) == 0
    {
      Turn(cur, position, off, position + n);
      bs := cur.ptr[off..off + n];
      Move(off, n);
    }

    // ---------- write, read, position ----------

    method Write(buf: seq<byte>)
      requires Valid() && Fits(baseSize, View(), buf)
      modifies this`position, this`size, this`capacity, this`cur, this`nodes, this`chunks, this`owner, this`Repr, Repr
      ensures Valid() && fresh(Repr - old(Repr)) && old(Repr) <= Repr
      ensures View() == Written(baseSize, old(View()), buf)
    {
      hide Flat;
      hide Overwrite;
      hide ChainValid;
      if |buf| == 0 {
        OverwriteNothing(View().content, position);
        return;
      }
      AddCapacity(|buf|);
      OverwritePrefix(old(Mem()), Mem(), position, buf);
      CopyIn(buf);
      if position > size {
        size := position;
      }
      OverwriteUsed(old(Mem()), old(size), old(position), buf, Mem());
    }

    /** The copying loop of write. */
    method CopyIn(buf: seq<byte>)
      requires ChainValid() && CursorValid() && position + |buf| <= capacity && |buf| > 0
      modifies this`chunks, this`position, this`cur, Repr
      ensures ChainValid() && CursorValid()
      ensures position == old(position) + |buf|
      ensures Mem() == Overwrite(old(Mem()), old(position), buf)
    {
      hide Overwrite;
      hide Flat;
      Here();
      var npos: nat := position % baseSize;
      var ncap := cur.size - npos;
      var bpos: nat, left: nat := 0, |buf|;
      ghost var before, start := Mem(), position;
      OverwriteNothing(before, start);
      while left > 0
        invariant ChainValid() && CursorValid()
        invariant bpos + left == |buf| && position == start + bpos && position + left <= capacity
        invariant Mem() == Overwrite(before, start, buf[..bpos])
        invariant left > 0 ==> npos == OffsetOf(baseSize, position) && ncap == baseSize - npos
        decreases left
      {
        if ncap >= left {
          OverwriteRun(before, start, buf, bpos, position, left);
          Put(npos, buf[bpos..bpos + left]);
          bpos := bpos + left;
          left := 0;
        } else {
          OverwriteRun(before, start, buf, bpos, position, ncap);
          Put(npos, buf[bpos..bpos + ncap]);
          bpos := bpos + ncap;
          left := left - ncap;
          ncap := cur.size;
          npos := 0;
        }
      }
      assert buf[..|buf|] == buf;
    }

    /** None is std::out_of_range. A read of zero bytes still looks at the current
        node, so it needs one. */
    method Read(n: nat) returns (r: Option<seq<byte>>)
      requires Valid()
      requires n == 0 ==> position < capacity
      modifies this`position, this`cur
      ensures Valid()
      ensures r.Some? <==> n <= |old(View()).Readable()|
      ensures r.None? ==> position == old(position)
      ensures r.Some? ==> r.value == old(View()).Readable()[..n] && position == old(position) + n
    {
      if n > GetReadSize() {
        return None;
      }
      var buf := CopyOut(n);
      SliceOfSlice(Mem(), old(position), size, n);
      r := Some(buf);
    }

    /** The copying loop of read. */
    method CopyOut(n: nat) returns (buf: seq<byte>)
      requires ChainValid() && CursorValid() && position < capacity && position + n <= capacity
      modifies this`position, this`cur
      ensures CursorValid() && position == old(position) + n <= |Mem()|
      ensures buf == Mem()[old(position)..position]
    {
      Here();
      var npos: nat := position % baseSize;
      var ncap := cur.size - npos;
      buf := [];
      var left: nat := n;
      ghost var m, start := Mem(), position;
      while left > 0
        invariant CursorValid()
        invariant |buf| + left == n && position == start + |buf| && position + left <= capacity
        invariant buf == m[start..position]
        invariant left > 0 ==> npos == OffsetOf(baseSize, position) && ncap == baseSize - npos
        decreases left
      {
        ghost var at := position;
        if ncap >= left {
          var part := Take(npos, left);
          Join(m, start, at, position);
          buf := buf + part;
          left := 0;
        } else {
          var part := Take(npos, ncap);
          Join(m, start, at, position);
          buf := buf + part;
          left := left - ncap;
          ncap := cur.size;
          npos := 0;
        }
      }
    }

    /** The const overload: it starts at the cursor's node, whatever node `pos` is in. */
    method ReadAt(n: nat, pos: nat) returns (r: Option<seq<byte>>)
      requires Valid()
      requires n <= GetReadSize() ==> position < capacity && AtCursor(pos) + n <= capacity
      ensures r.Some? <==> n <= GetReadSize()
      ensures r.Some? ==> r.value == Mem()[AtCursor(pos)..AtCursor(pos) + n]
    {
      if n > GetReadSize() {
        return None;
      }
      WalkIsDivision(baseSize, pos);
      Here();
      CursorStart(pos);
      var buf := CopyFrom(cur, pos % baseSize, n, AtCursor(pos));
      r := Some(buf);
    }

    /** Its copying loop, which leaves the cursor alone. */
    method CopyFrom(node: Node, off: nat, n: nat, ghost start: nat) returns (buf: seq<byte>)
      requires ChainValid() && start + n <= capacity
      requires node == NodeAt(NodeOf(baseSize, start)) && off == OffsetOf(baseSize, start)
      ensures start + n <= |Mem()| && buf == Mem()[start..start + n]
    {
      var c: Node?, npos, ncap := node, off, node.size - off;
      buf := [];
      var left: nat := n;
      ghost var m, at := Mem(), start;
      while left > 0
        invariant |buf| + left == n && at == start + |buf|
        invariant buf == m[start..at]
        invariant left > 0 ==> c != null && c == NodeAt(NodeOf(baseSize, at)) && npos == OffsetOf(baseSize, at) && ncap == baseSize - npos
        decreases left
      {
        if ncap >= left {
          ghost var to := at + left;
          var part, next := Peek(c, at, to, npos, left);
          Join(m, start, at, to);
          buf := buf + part;
          c := next;
          at := to;
          left := 0;
        } else {
          ghost var to := at + ncap;
          var part, next := Peek(c, at, to, npos, ncap);
          Join(m, start, at, to);
          buf := buf + part;
          at := to;
          left := left - ncap;
          c := next;
          ncap := c.size;
          npos := 0;
        }
      }
    }

    /** Where the const overload really starts. */
    ghost function AtCursor(pos: nat): nat
      requires 0 < baseSize
      reads this`position
    {
      position - OffsetOf(baseSize, position) + OffsetOf(baseSize, pos)
    }

    lemma CursorStart(pos: nat)
      requires Valid() && position < capacity
      ensures NodeOf(baseSize, AtCursor(pos)) == NodeOf(baseSize, position)
      ensures OffsetOf(baseSize, AtCursor(pos)) == OffsetOf(baseSize, pos)
    {
      SameNode(baseSize, position, OffsetOf(baseSize, pos));
    }

    /** It reads at `pos` exactly when pos lies in the cursor's node. */
    lemma AtCursorIsPos(pos: nat)
      requires Valid()
      ensures AtCursor(pos) == pos <==> pos / baseSize == position / baseSize
    {
      WalkIsDivision(baseSize, pos);
      WalkIsDivision(baseSize, position);
      SameNodeIff(baseSize, position, pos);
    }

    method SetPosition(v: nat) returns (ok: bool)
      requires Valid()
      modifies this`position, this`size, this`cur
      ensures Valid()
      ensures ok <==> v <= capacity
      ensures !ok ==> position == old(position) && size == old(size) && cur == old(cur)
      ensures ok ==> position == v && size == Max(old(size), v) && old(View()).content <= View().content
    {
      if v > capacity {
        return false;
      }
      position := v;
      if position > size {
        size := position;
      }
      Seek(v);
      ok := true;
    }

    /** The walk of setPosition. */
    method Seek(v: nat)
      requires ChainValid() && v <= capacity
      modifies this`cur
      ensures cur == NodeAt(NodeOf(baseSize, v))
    {
      cur := root;
      var w: nat := v;
      ghost var k := 0;
      assert chunks[0..] == chunks;
      while w > cur.size
        invariant 0 <= k < |nodes| && cur == nodes[k]
        invariant NodeOf(baseSize, v) == k + NodeOf(baseSize, w) && w <= |Flat(chunks[k..])|
        decreases w
      {
        assert chunks[k..][1..] == chunks[k + 1..];
        w := w - cur.size;
        cur := cur.next;
        k := k + 1;
      }
      if w == cur.size {
        cur := cur.next;
      }
    }

    /** Back to one node; the others are deleted. */
    method Clear()
      requires Valid()
      modifies this`position, this`size, this`capacity, this`cur, this`nodes, this`chunks, this`Repr, root`next
      ensures Valid() && Repr <= old(Repr)
      ensures View() == Tape([], 0, baseSize)
      ensures Mem() <= old(Mem())
    {
      position, size := 0, 0;
      Truncate();
      cur := root;
    }

    method Truncate()
      requires ChainValid()
      modifies this`capacity, this`nodes, this`chunks, this`Repr, root`next
      ensures ChainValid() && Repr <= old(Repr)
      ensures nodes == [root] && capacity == baseSize && Mem() <= old(Mem())
    {
      assert chunks == [chunks[0]] + chunks[1..];
      FlatOne(chunks[0]);
      capacity := baseSize;
      root.next := null;
      nodes, chunks := [root], [chunks[0]];
      Repr := {root, root.ptr};
    }

    method ToString() returns (s: seq<byte>)
      requires Valid()
      ensures s == View().Readable()
    {
      if GetReadSize() == 0 {
        return [];
      }
      AtCursorIsPos(position);
      var r := ReadAt(GetReadSize(), position);
      s := r.value;
    }

    // ---------- gather and scatter ----------

    /** getReadBuffers from the cursor. */
    method GetReadBuffers(buffers: seq<IoVec>, len: nat) returns (out: seq<IoVec>, total: nat)
      requires Valid()
      ensures total == Min(len, GetReadSize())
      ensures out == buffers + Slices(nodes, baseSize, position, position + total)
    {
      total := if len > GetReadSize() then GetReadSize() else len;
      if total == 0 {
        return buffers, 0;
      }
      Here();
      out := Collect(cur, position % baseSize, buffers, total, position);
    }

    /** getReadBuffers from an explicit position, by walking from the root; the length
        is still limited by what is readable from the cursor. */
    method GetReadBuffersAt(buffers: seq<IoVec>, len: nat, pos: nat) returns (out: seq<IoVec>, total: nat)
      requires Valid() && pos + Min(len, GetReadSize()) <= capacity
      ensures total == Min(len, GetReadSize())
      ensures out == buffers + Slices(nodes, baseSize, pos, pos + total)
    {
      total := if len > GetReadSize() then GetReadSize() else len;
      if total == 0 {
        return buffers, 0;
      }
      WalkIsDivision(baseSize, pos);
      InChain(baseSize, chunks, pos);
      var npos: nat := pos % baseSize;
      var count: nat := pos / baseSize;
      var c := root;
      ghost var k := 0;
      while count > 0
        invariant k + count == NodeOf(baseSize, pos) && c == nodes[k]
      {
        c := c.next;
        k := k + 1;
        count := count - 1;
      }
      out := Collect(c, npos, buffers, total, pos);
    }

    /** getWriteBuffers: room for len bytes at the cursor. */
    method GetWriteBuffers(buffers: seq<IoVec>, len: nat) returns (out: seq<IoVec>, total: nat)
      requires Valid() && Suffices(baseSize, capacity - position, len)
      modifies this`nodes, this`chunks, this`owner, this`Repr, this`capacity, this`cur, Repr
      ensures Valid() && fresh(Repr - old(Repr)) && old(Repr) <= Repr
      ensures old(Mem()) <= Mem() && capacity == Grow(baseSize, position, old(capacity), len)
      ensures total == len && position + len <= capacity
      ensures out == buffers + Slices(nodes, baseSize, position, position + len)
    {
      if len == 0 {
        return buffers, 0;
      }
      AddCapacity(len);
      Here();
      total := len;
      out := Collect(cur, position % baseSize, buffers, len, position);
    }

    /** The loop the three have in common. */
    method Collect(node: Node, off: nat, buffers: seq<IoVec>, total: nat, ghost pos: nat) returns (out: seq<IoVec>)
      requires ChainValid() && pos + total <= capacity
      requires node == NodeAt(NodeOf(baseSize, pos)) && off == OffsetOf(baseSize, pos)
      ensures out == buffers + Slices(nodes, baseSize, pos, pos + total)
    {
      assert Slices(nodes, baseSize, pos + total, pos + total) == [];
      hide Slices;
      hide Flat;
      hide SliceEnd;
      var c: Node?, npos, ncap, len: nat := node, off, node.size - off, total;
      out := buffers;
      ghost var at, end := pos, pos + total;
      while len > 0
        invariant at + len == end
        invariant len > 0 ==> c != null && c == NodeAt(NodeOf(baseSize, at)) && npos == OffsetOf(baseSize, at) && ncap == baseSize - npos
        invariant out + Slices(nodes, baseSize, at, end) == buffers + Slices(nodes, baseSize, pos, end)
        decreases len
      {
        var iov: IoVec;
        ghost var from := at;
        at := SliceEnd(baseSize, at, end);
        FirstSlice(from, end, at);
        Turn(c, from, npos, at);
        if ncap >= len {
          iov := IoVec(c.ptr, npos, len);
          len := 0;
        } else {
          iov := IoVec(c.ptr, npos, ncap);
          len := len - ncap;
          c := c.next;
          ncap := c.size;
          npos := 0;
        }
        PushBack(out, iov, Slices(nodes, baseSize, at, end));
        out := out + [iov];
      }
    }

    /** The first slice of a range, and the slices after it. */
    lemma FirstSlice(from: nat, end: nat, to: nat)
      requires ChainValid() && from < end <= capacity && to == SliceEnd(baseSize, from, end)
      ensures NodeOf(baseSize, from) < |nodes| && to <= |Mem()|
      ensures var iov := IoVec(nodes[NodeOf(baseSize, from)].ptr, OffsetOf(baseSize, from), to - from);
              Slices(nodes, baseSize, from, end) == [iov] + Slices(nodes, baseSize, to, end) &&
              iov.off + iov.len <= iov.base.Length && iov.base[iov.off..iov.off + iov.len] == Mem()[from..to]
    {
      Turn(NodeAt(NodeOf(baseSize, from)), from, OffsetOf(baseSize, from), to);
    }

    /** The slices name exactly the bytes at [pos, end), in order, */
    lemma {:induction false} GatherSlices(pos: nat, end: nat)
      requires ChainValid() && pos <= end <= capacity
      ensures var v := Slices(nodes, baseSize, pos, end);
              InBounds(v) && Total(v) == end - pos && Gather(v) == Mem()[pos..end]
      decreases end - pos
    {
      if pos < end {
        var to := SliceEnd(baseSize, pos, end);
        FirstSlice(pos, end, to);
        GatherSlices(to, end);
        var iov := IoVec(nodes[NodeOf(baseSize, pos)].ptr, OffsetOf(baseSize, pos), to - pos);
        GatherStep(iov, Slices(nodes, baseSize, to, end), Mem(), pos, to, end);
      }
    }

    /** one in each node from the position's on, so that no two share memory. */
    lemma {:induction false} SlicesApart(pos: nat, end: nat, i: nat, j: nat)
      requires ChainValid() && pos <= end <= capacity
      requires i < j < |Slices(nodes, baseSize, pos, end)|
      ensures var v := Slices(nodes, baseSize, pos, end); v[i].base != v[j].base
    {
      SliceNode(pos, end, i);
      SliceNode(pos, end, j);
    }

    lemma {:induction false} SliceNode(pos: nat, end: nat, i: nat)
      requires ChainValid() && pos <= end <= capacity
      requires i < |Slices(nodes, baseSize, pos, end)|
      ensures var k := NodeOf(baseSize, pos) + i;
              k < |nodes| && Slices(nodes, baseSize, pos, end)[i].base == nodes[k].ptr && owner[nodes[k].ptr] == k
      decreases i
    {
      var to := SliceEnd(baseSize, pos, end);
      FirstSlice(pos, end, to);
      if i > 0 {
        Advance(baseSize, pos, to - pos);
        SliceNode(to, end, i - 1);
      }
    }
  }

  // ---------- what the buffer calls promise ----------

  /** The stretches of memory that hold positions [pos, end) of a chain. */
  ghost function Slices(nodes: seq<Node>, base: nat, pos: nat, end: nat): (v: seq<IoVec>)
    requires base > 0
    decreases end - pos
  {
    if pos >= end || NodeOf(base, pos) >= |nodes| then []
    else
      var to := SliceEnd(base, pos, end);
      [IoVec(nodes[NodeOf(base, pos)].ptr, OffsetOf(base, pos), to - pos)] + Slices(nodes, base, to, end)
  }

  /** Where the slice that starts at pos ends: with the node, or with the range. */
  function SliceEnd(base: nat, pos: nat, end: nat): (to: nat)
    requires base > 0 && pos < end
    ensures pos < to <= end && OffsetOf(base, pos) + (to - pos) <= base
    ensures to < end ==> OffsetOf(base, pos) + (to - pos) == base
  {
    pos + Min(base - OffsetOf(base, pos), end - pos)
  }

  ghost predicate InBounds(v: seq<IoVec>)
  {
    forall i <- v :: i.off + i.len <= i.base.Length
  }

  function Total(v: seq<IoVec>): nat
  {
    if v == [] then 0 else v[0].len + Total(v[1..])
  }

  /** The bytes in the slices, one after the other. */
  function Gather(v: seq<IoVec>): seq<byte>
    requires forall i <- v :: i.off + i.len <= i.base.Length
    reads set i <- v :: i.base
  {
    if v == [] then [] else v[0].base[v[0].off..v[0].off + v[0].len] + Gather(v[1..])
  }

  lemma GatherStep(iov: IoVec, rest: seq<IoVec>, m: seq<byte>, pos: nat, to: nat, end: nat)
    requires pos <= to <= end <= |m|
    requires iov.off + iov.len <= iov.base.Length && iov.len == to - pos
    requires iov.base[iov.off..iov.off + iov.len] == m[pos..to]
    requires InBounds(rest) && Total(rest) == end - to && Gather(rest) == m[to..end]
    ensures var v := [iov] + rest; InBounds(v) && Total(v) == end - pos && Gather(v) == m[pos..end]
  {
    var v := [iov] + rest;
    assert v[1..] == rest && v[0] == iov;
    Join(m, pos, to, end);
  }

  lemma PushBack(out: seq<IoVec>, iov: IoVec, rest: seq<IoVec>)
    ensures out + [iov] + rest == out + ([iov] + rest)
  {
  }
}

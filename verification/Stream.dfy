/** Moving bytes between a ByteArray and a socket that transfers as much as it likes:
    SocketStream's read and write, and the loops of Stream that repeat them until a
    fixed amount has gone through. */
module Streams {
  import opened Codec
  import opened Wire
  import opened Chain
  import opened ByteArrays

  // ---------- scattering bytes over slices ----------

  function Bases(v: seq<IoVec>): set<array<byte>>
  {
    set i <- v :: i.base
  }

  /** No two slices share memory. */
  ghost predicate Apart(v: seq<IoVec>)
  {
    forall i, j :: 0 <= i < j < |v| ==> v[i].base != v[j].base
  }

  ghost function Contents(v: seq<IoVec>): (c: seq<seq<byte>>)
    reads Bases(v)
    ensures |c| == |v|
  {
    if v == [] then [] else [v[0].base[..]] + Contents(v[1..])
  }

  /** The slices hold `data`, each filled before the next, over what their arrays held
      before. */
  ghost predicate Scattered(v: seq<IoVec>, before: seq<seq<byte>>, data: seq<byte>)
    requires |before| == |v|
    reads Bases(v)
  {
    v == [] ||
    var n := Min(v[0].len, |data|);
    v[0].off <= |before[0]| &&
    v[0].base[..] == Overwrite(before[0], v[0].off, data[..n]) &&
    Scattered(v[1..], before[1..], data[n..])
  }

  /** No two nodes share memory. */
  ghost predicate Owned(nodes: seq<Node>, owner: map<array<byte>, nat>)
  {
    forall i {:trigger nodes[i]} :: 0 <= i < |nodes| ==> nodes[i].ptr in owner && owner[nodes[i].ptr] == i
  }

  /** The nodes outside the slices hold what they held. */
  ghost predicate Untouched(nodes: seq<Node>, chunks: seq<seq<byte>>, v: seq<IoVec>)
    requires |chunks| == |nodes|
    reads set i | 0 <= i < |nodes| :: nodes[i].ptr
  {
    forall i {:trigger nodes[i]} :: 0 <= i < |nodes| && nodes[i].ptr !in Bases(v) ==> nodes[i].ptr[..] == chunks[i]
  }

  /** A chain, the slices of [pos, end) in it, and what they held before. */
  ghost predicate Sliced(nodes: seq<Node>, base: nat, chunks: seq<seq<byte>>,
                         pos: nat, end: nat, v: seq<IoVec>, before: seq<seq<byte>>)
  {
    base > 0 && |chunks| == |nodes| && Equal(base, chunks) &&
    pos <= end <= |Flat(chunks)| && v == Slices(nodes, base, pos, end) && |before| == |v| &&
    (v != [] ==> NodeOf(base, pos) + |v| <= |nodes| && before == chunks[NodeOf(base, pos)..NodeOf(base, pos) + |v|])
  }

  /** Scattering data over the slices of [pos, end) lays it over the flat sequence at pos. */
  lemma {:induction false} Poured(nodes: seq<Node>, owner: map<array<byte>, nat>, base: nat, chunks: seq<seq<byte>>,
                                  pos: nat, end: nat, data: seq<byte>, v: seq<IoVec>, before: seq<seq<byte>>)
    returns (after: seq<seq<byte>>)
    requires Sliced(nodes, base, chunks, pos, end, v, before) && |data| <= end - pos && Owned(nodes, owner)
    requires Scattered(v, before, data) && Untouched(nodes, chunks, v)
    ensures |after| == |nodes| && Equal(base, after) && Untouched(nodes, after, [])
    ensures Flat(after) == Overwrite(Flat(chunks), pos, data)
    decreases end - pos
  {
    if pos == end {
      after := chunks;
      OverwriteNothing(Flat(chunks), pos);
    } else {
      var to := SliceEnd(base, pos, end);
      var n := Min(to - pos, |data|);
      var next := FirstPoured(nodes, base, chunks, pos, end, to, data, n, v, before);
      UntouchedRest(nodes, owner, chunks, next, NodeOf(base, pos), v);
      after := Poured(nodes, owner, base, next, to, end, data[n..], v[1..], before[1..]);
      OverwriteParts(Flat(chunks), pos, to, data, n);
    }
  }

  /** One slice of it. */
  lemma FirstPoured(nodes: seq<Node>, base: nat, chunks: seq<seq<byte>>,
                    pos: nat, end: nat, to: nat, data: seq<byte>, n: nat, v: seq<IoVec>, before: seq<seq<byte>>)
    returns (next: seq<seq<byte>>)
    requires Sliced(nodes, base, chunks, pos, end, v, before) && |data| <= end - pos && Scattered(v, before, data)
    requires pos < end && to == SliceEnd(base, pos, end) && n == Min(to - pos, |data|)
    ensures v != [] && NodeOf(base, pos) < |nodes| && v[0].base == nodes[NodeOf(base, pos)].ptr
    ensures |next| == |chunks| && next == chunks[NodeOf(base, pos) := v[0].base[..]]
    ensures pos + n <= |Flat(chunks)| && Flat(next) == Overwrite(Flat(chunks), pos, data[..n])
    ensures Sliced(nodes, base, next, to, end, v[1..], before[1..])
    ensures Scattered(v[1..], before[1..], data[n..])
  {
    var k, off := NodeOf(base, pos), OffsetOf(base, pos);
    InChain(base, chunks, pos);
    var c := Overwrite(chunks[k], off, data[..n]);
    next := chunks[k := c];
    FlatUpdate(base, chunks, pos, data[..n]);
    SlicedNext(nodes, base, chunks, pos, end, to, v, before, k, c, next);
    FirstScattered(v, before, data);
  }

  lemma SlicedNext(nodes: seq<Node>, base: nat, chunks: seq<seq<byte>>, pos: nat, end: nat, to: nat,
                   v: seq<IoVec>, before: seq<seq<byte>>, k: nat, c: seq<byte>, next: seq<seq<byte>>)
    requires Sliced(nodes, base, chunks, pos, end, v, before)
    requires pos < end && to == SliceEnd(base, pos, end) && k == NodeOf(base, pos) < |nodes|
    requires |c| == base && next == chunks[k := c] && |Flat(next)| == |Flat(chunks)|
    ensures v != [] && v[0] == IoVec(nodes[k].ptr, OffsetOf(base, pos), to - pos) && before[0] == chunks[k]
    ensures Sliced(nodes, base, next, to, end, v[1..], before[1..])
  {
    hide Flat;
    var rest := Slices(nodes, base, to, end);
    assert v == [IoVec(nodes[k].ptr, OffsetOf(base, pos), to - pos)] + rest;
    assert v[1..] == rest;
    if rest != [] {
      NextNode(nodes, base, pos, end, to);
      Behind(chunks, k, c, |v|, before, next);
    }
  }

  lemma NextNode(nodes: seq<Node>, base: nat, pos: nat, end: nat, to: nat)
    requires base > 0 && pos < end && to == SliceEnd(base, pos, end) && Slices(nodes, base, to, end) != []
    ensures NodeOf(base, to) == NodeOf(base, pos) + 1
  {
    Advance(base, pos, to - pos);
  }

  lemma Behind(chunks: seq<seq<byte>>, k: nat, c: seq<byte>, n: nat, before: seq<seq<byte>>, next: seq<seq<byte>>)
    requires 0 < n && k + n <= |chunks| && before == chunks[k..k + n] && next == chunks[k := c]
    ensures before[1..] == next[k + 1..k + n] && |before[1..]| == n - 1
  {
  }

  lemma UntouchedRest(nodes: seq<Node>, owner: map<array<byte>, nat>, chunks: seq<seq<byte>>, next: seq<seq<byte>>, k: nat, v: seq<IoVec>)
    requires |chunks| == |nodes| && Owned(nodes, owner) && Untouched(nodes, chunks, v)
    requires v != [] && k < |nodes| && v[0].base == nodes[k].ptr && next == chunks[k := v[0].base[..]]
    ensures Untouched(nodes, next, v[1..])
  {
    assert forall w <- v :: w == v[0] || w in v[1..];
  }

  lemma OverwriteParts(m: seq<byte>, pos: nat, to: nat, data: seq<byte>, n: nat)
    requires pos <= to && to <= |m| && pos + |data| <= |m| && n == Min(to - pos, |data|)
    ensures to + |data[n..]| <= |m|
    ensures Overwrite(Overwrite(m, pos, data[..n]), to, data[n..]) == Overwrite(m, pos, data)
  {
  }

  lemma FirstScattered(v: seq<IoVec>, before: seq<seq<byte>>, data: seq<byte>)
    requires |before| == |v| > 0 && Scattered(v, before, data)
    ensures var n := Min(v[0].len, |data|);
            v[0].off <= |before[0]| &&
            v[0].base[..] == Overwrite(before[0], v[0].off, data[..n]) &&
            Scattered(v[1..], before[1..], data[n..])
  {
  }

  // ---------- the socket ----------

  /** The two directions of a connected socket. Every transfer moves some positive
      amount, chosen by the kernel, of what is asked for. */
  class Socket {
    var sent: seq<byte>
    var inbox: seq<byte>    // all that will ever arrive
    var got: nat            // how much of it has been received

    constructor (arriving: seq<byte>)
      ensures sent == [] && inbox == arriving && got == 0
    {
      sent, inbox, got := [], arriving, 0;
    }

    method Send(v: seq<IoVec>) returns (rt: nat)
      requires InBounds(v) && Total(v) > 0
      modifies this`sent
      ensures 0 < rt <= Total(v) == |Gather(v)| && sent == old(sent) + Gather(v)[..rt]
    {
      GatherLength(v);
      rt :| 0 < rt <= Total(v);
      sent := sent + Gather(v)[..rt];
    }

    method Recv(v: seq<IoVec>) returns (rt: nat)
      requires InBounds(v) && Apart(v) && Total(v) > 0 && got < |inbox|
      modifies this`got, Bases(v)
      ensures 0 < rt <= Total(v) && got == old(got) + rt <= |inbox|
      ensures Scattered(v, old(Contents(v)), inbox[old(got)..got])
    {
      var most := Min(Total(v), |inbox| - got);
      assert 0 < most <= |inbox| - got;
      rt :| 0 < rt <= most;
      Scatter(v, inbox[got..got + rt]);
      got := got + rt;
    }
  }

  lemma {:induction false} GatherLength(v: seq<IoVec>)
    requires InBounds(v)
    ensures |Gather(v)| == Total(v)
  {
    if v != [] {
      GatherLength(v[1..]);
    }
  }

  /** The kernel filling the slices in order. */
  method Scatter(v: seq<IoVec>, data: seq<byte>)
    requires InBounds(v) && Apart(v)
    modifies Bases(v)
    ensures Scattered(v, old(Contents(v)), data)
    decreases |v|
  {
    if v != [] {
      var n := Min(v[0].len, |data|);
      Fill(v[0].base, v[0].off, data[..n]);
      assert v[0].base !in Bases(v[1..]);
      assert Contents(v[1..]) == old(Contents(v[1..]));
      label First:
      Scatter(v[1..], data[n..]);
      assert v[0].base[..] == old@First(v[0].base[..]);
    }
  }

  method Fill(a: array<byte>, off: nat, src: seq<byte>)
    requires off + |src| <= a.Length
    modifies a
    ensures a[..] == Overwrite(old(a[..]), off, src)
  {
    forall j | 0 <= j < |src| {
      a[off + j] := src[j];
    }
  }

  // ---------- SocketStream ----------

  /** Before the transfer: the slices hold the bytes of their nodes. */
  lemma {:induction false} ContentsAre(nodes: seq<Node>, chunks: seq<seq<byte>>, k: nat, v: seq<IoVec>)
    requires |chunks| == |nodes| && k + |v| <= |nodes|
    requires forall i {:trigger v[i]} :: 0 <= i < |v| ==> v[i].base == nodes[k + i].ptr && v[i].base[..] == chunks[k + i]
    ensures Contents(v) == chunks[k..k + |v|]
    decreases |v|
  {
    if v != [] {
      ContentsAre(nodes, chunks, k + 1, v[1..]);
    }
  }

  lemma SlicesOwned(ba: ByteArray, end: nat, v: seq<IoVec>)
    requires ba.Valid() && ba.position < end <= ba.capacity && v == Slices(ba.nodes, ba.baseSize, ba.position, end)
    ensures forall w <- v :: w.base in ba.Repr
  {
    forall w | w in v ensures w.base in ba.Repr {
      var i :| 0 <= i < |v| && v[i] == w;
      ba.SliceNode(ba.position, end, i);
    }
  }

  lemma WriteSlices(ba: ByteArray, end: nat, v: seq<IoVec>)
    requires ba.Valid() && ba.position < end <= ba.capacity && v == Slices(ba.nodes, ba.baseSize, ba.position, end)
    ensures InBounds(v) && Apart(v) && Total(v) == end - ba.position
    ensures Sliced(ba.nodes, ba.baseSize, ba.chunks, ba.position, end, v, Contents(v))
  {
    hide Slices;
    hide Flat;
    ba.GatherSlices(ba.position, end);
    var k := NodeOf(ba.baseSize, ba.position);
    forall i {:trigger v[i]} | 0 <= i < |v| ensures k + i < |ba.nodes| && v[i].base == ba.nodes[k + i].ptr {
      ba.SliceNode(ba.position, end, i);
    }
    forall i, j | 0 <= i < j < |v| ensures v[i].base != v[j].base {
      ba.SlicesApart(ba.position, end, i, j);
    }
    InChain(ba.baseSize, ba.chunks, ba.position);
    if v != [] {
      assert v[|v| - 1].base == ba.nodes[k + (|v| - 1)].ptr;
    }
    ContentsAre(ba.nodes, ba.chunks, k, v);
  }

  class SocketStream {
    const socket: Socket

    constructor (s: Socket)
      ensures socket == s
    {
      socket := s;
    }

    /** write(ba, length): hand over what is readable, move on by what was taken. */
    method Write(ba: ByteArray, length: nat) returns (rt: nat)
      requires ba.Valid() && 0 < length && ba.position < ba.size
      modifies socket`sent, ba`position, ba`size, ba`cur
      ensures ba.Valid() && 0 < rt <= Min(length, old(ba.size - ba.position))
      ensures socket.sent == old(socket.sent) + old(ba.View()).Readable()[..rt]
      ensures ba.View() == old(ba.View()).(pos := old(ba.position) + rt)
    {
      ghost var all := ba.View().Readable();
      var v := ReadSlices(ba, length);
      rt := socket.Send(v);
      assert all[..Total(v)][..rt] == all[..rt];
      var ok := ba.SetPosition(ba.position + rt);
    }

    /** read(ba, length): make room for length bytes, take what came, move on by it. */
    method Read(ba: ByteArray, length: nat) returns (rt: nat)
      requires ba.Valid() && 0 < length && Suffices(ba.baseSize, ba.capacity - ba.position, length)
      requires socket.got < |socket.inbox| && socket !in ba.Repr
      modifies socket`got, ba, ba.Repr
      ensures ba.Valid() && fresh(ba.Repr - old(ba.Repr)) && old(ba.Repr) <= ba.Repr
      ensures 0 < rt <= length && socket.got == old(socket.got) + rt <= |socket.inbox|
      ensures ba.View() == Tape(Overwrite(old(ba.View()).content, old(ba.position), socket.inbox[old(socket.got)..socket.got]),
                                old(ba.position) + rt, Grow(ba.baseSize, old(ba.position), old(ba.capacity), length))
    {
      hide Overwrite;
      hide Grow;
      hide Slices;
      var v := WriteSlots(ba, length);
      ghost var room := ba.Mem();
      rt := Receive(ba, v, length);
      ghost var data := socket.inbox[old(socket.got)..socket.got];
      Stored(old(ba.Mem()), room, ba.size, ba.position, data);
      Advance(ba, rt, Overwrite(old(ba.View()).content, ba.position, data));
    }

    /** setPosition, once the bytes are in. */
    method Advance(ba: ByteArray, rt: nat, ghost content: seq<byte>)
      requires ba.Valid() && ba.position + rt <= ba.capacity && content == ba.Mem()[..Max(ba.size, ba.position + rt)]
      modifies ba`position, ba`size, ba`cur
      ensures ba.Valid() && ba.View() == Tape(content, old(ba.position) + rt, ba.capacity)
    {
      var ok := ba.SetPosition(ba.position + rt);
    }

    method WriteSlots(ba: ByteArray, length: nat) returns (v: seq<IoVec>)
      requires ba.Valid() && Suffices(ba.baseSize, ba.capacity - ba.position, length)
      modifies ba`nodes, ba`chunks, ba`owner, ba`Repr, ba`capacity, ba`cur, ba.Repr
      ensures ba.Valid() && fresh(ba.Repr - old(ba.Repr)) && old(ba.Repr) <= ba.Repr
      ensures old(ba.Mem()) <= ba.Mem() && ba.capacity == Grow(ba.baseSize, ba.position, old(ba.capacity), length)
      ensures ba.position + length <= ba.capacity && v == Slices(ba.nodes, ba.baseSize, ba.position, ba.position + length)
    {
      var total: nat;
      v, total := ba.GetWriteBuffers([], length);
      NothingBefore(Slices(ba.nodes, ba.baseSize, ba.position, ba.position + length));
    }

    /** The transfer itself, which writes into the nodes behind the array's back. */
    method Receive(ba: ByteArray, v: seq<IoVec>, length: nat) returns (rt: nat)
      requires ba.Valid() && 0 < length && socket.got < |socket.inbox| && socket !in ba.Repr
      requires ba.position + length <= ba.capacity && v == Slices(ba.nodes, ba.baseSize, ba.position, ba.position + length)
      modifies socket`got, ba`chunks, ba.Repr
      ensures ba.Valid()
      ensures 0 < rt <= length && socket.got == old(socket.got) + rt <= |socket.inbox|
      ensures ba.Mem() == Overwrite(old(ba.Mem()), ba.position, socket.inbox[old(socket.got)..socket.got])
    {
      hide Slices;
      hide Flat;
      hide Overwrite;
      hide ByteArray.CursorValid;
      hide InBounds;
      hide Apart;
      hide Sliced;
      hide Scattered;
      hide Contents;
      ghost var chunks, end := ba.chunks, ba.position + length;
      WriteSlices(ba, end, v);
      SlicesOwned(ba, end, v);
      ghost var before := Contents(v);
      rt := socket.Recv(v);
      ghost var data := socket.inbox[old(socket.got)..socket.got];
      ba.chunks := Poured(ba.nodes, ba.owner, ba.baseSize, chunks, ba.position, end, data, v, before);
      Absorbed(ba);
    }

    // ---------- Stream: repeat until done ----------

    /** writeFixSize over a ByteArray. */
    method WriteFixSize(ba: ByteArray, length: nat) returns (r: nat)
      requires ba.Valid() && length <= ba.size - ba.position
      modifies socket`sent, ba`position, ba`size, ba`cur
      ensures ba.Valid() && r == length
      ensures socket.sent == old(socket.sent) + old(ba.View()).Readable()[..length]
      ensures ba.View() == old(ba.View()).(pos := old(ba.position) + length)
    {
      var left := length;
      ghost var all, before, view, done: nat := ba.View().Readable(), socket.sent, ba.View(), 0;
      while left > 0
        invariant ba.Valid() && done + left == length
        invariant socket.sent == before + all[..done]
        invariant ba.View() == view.(pos := view.pos + done)
      {
        var len := Write(ba, left);
        SendMore(view, all, before, done, len);
        done := done + len;
        left := left - len;
      }
      r := length;
    }

    /** readFixSize over a ByteArray: however the bytes come in, it is one write of all
        of them. */
    method ReadFixSize(ba: ByteArray, length: nat) returns (r: nat)
      requires ba.Valid() && Suffices(ba.baseSize, ba.capacity - ba.position, length)
      requires socket.got + length <= |socket.inbox| && socket !in ba.Repr
      modifies socket`got, ba, ba.Repr
      ensures ba.Valid() && fresh(ba.Repr - old(ba.Repr)) && old(ba.Repr) <= ba.Repr && r == length
      ensures socket.got == old(socket.got) + length
      ensures ba.View() == Written(ba.baseSize, old(ba.View()), socket.inbox[old(socket.got)..socket.got])
    {
      hide Flat;
      hide Overwrite;
      var left: nat, done: nat := length, 0;
      ghost var view, start := ba.View(), socket.got;
      ghost var data := socket.inbox[start..start + length];
      OverwriteNothing(view.content, view.pos);
      while left > 0
        invariant ba.Valid() && fresh(ba.Repr - old(ba.Repr)) && old(ba.Repr) <= ba.Repr
        invariant done + left == length && socket.got == start + done && socket !in ba.Repr
        invariant ba.View() == Filled(ba.baseSize, view, data, done)
      {
        done := ReadTurn(ba, view, data, done, left, start);
        left := length - done;
      }
      r := length;
      assert data[..length] == data;
    }

    /** One turn of it. */
    method ReadTurn(ba: ByteArray, ghost view: Tape, ghost data: seq<byte>, done: nat, left: nat, ghost start: nat) returns (now: nat)
      requires ba.Valid() && 0 < left && socket !in ba.Repr
      requires view.Sane() && Suffices(ba.baseSize, view.cap - view.pos, |data|) && done + left == |data|
      requires socket.got == start + done && start + |data| <= |socket.inbox| && data == socket.inbox[start..start + |data|]
      requires ba.View() == Filled(ba.baseSize, view, data, done)
      modifies socket`got, ba, ba.Repr
      ensures ba.Valid() && fresh(ba.Repr - old(ba.Repr)) && old(ba.Repr) <= ba.Repr
      ensures done < now <= |data| && socket.got == start + now
      ensures ba.View() == Filled(ba.baseSize, view, data, now)
    {
      hide Overwrite;
      hide Flat;
      hide Filled;
      hide Grow;
      FillReady(ba.baseSize, view, data, done, left);
      ghost var t := ba.View();
      assert t.pos == ba.position && t.cap == ba.capacity;
      hide ByteArray.Valid;
      hide ByteArray.View;
      var len := Read(ba, left);
      FillTurn(ba.baseSize, view, data, done, left, len, socket.inbox, start);
      now := done + len;
    }

    /** writeFixSize and readFixSize over plain memory. */
    method WriteFixSizeFrom(buffer: array<byte>, length: nat) returns (r: nat)
      requires length <= buffer.Length
      modifies socket`sent
      ensures r == length && socket.sent == old(socket.sent) + buffer[..length]
    {
      var offset, left := 0, length;
      while left > 0
        invariant offset + left == length
        invariant socket.sent == old(socket.sent) + buffer[..offset]
      {
        var v := [IoVec(buffer, offset, left)];
        OneSlice(v, buffer, offset, left);
        ghost var before := socket.sent;
        var len := socket.Send(v);
        assert buffer[..offset + len] == buffer[..offset] + buffer[offset..offset + left][..len];
        offset := offset + len;
        left := left - len;
      }
      r := length;
    }

    method ReadFixSizeInto(buffer: array<byte>, length: nat) returns (r: nat)
      requires length <= buffer.Length && socket.got + length <= |socket.inbox|
      modifies socket`got, buffer
      ensures r == length && socket.got == old(socket.got) + length
      ensures buffer[..] == socket.inbox[old(socket.got)..socket.got] + old(buffer[..])[length..]
    {
      var offset, left := 0, length;
      while left > 0
        invariant offset + left == length && socket.got == old(socket.got) + offset
        invariant buffer[..] == socket.inbox[old(socket.got)..socket.got] + old(buffer[..])[offset..]
      {
        ghost var got, was := socket.got, buffer[..];
        var len := ReadInto(buffer, offset, left);
        PlainMore(was, offset, socket.inbox[got..socket.got], offset + len, old(buffer[..]), socket.inbox, old(socket.got), got, socket.got);
        offset := offset + len;
        left := left - len;
      }
      r := length;
    }

    /** read(buffer + offset, left) */
    method ReadInto(buffer: array<byte>, offset: nat, left: nat) returns (len: nat)
      requires left > 0 && offset + left <= buffer.Length && socket.got < |socket.inbox|
      modifies socket`got, buffer
      ensures 0 < len <= left && socket.got == old(socket.got) + len <= |socket.inbox|
      ensures buffer[..] == Overwrite(old(buffer[..]), offset, socket.inbox[old(socket.got)..socket.got])
    {
      var v := [IoVec(buffer, offset, left)];
      OneSlice(v, buffer, offset, left);
      ghost var before := Contents(v);
      len := socket.Recv(v);
      FirstScattered(v, before, socket.inbox[old(socket.got)..socket.got]);
    }
  }

  /** Midway through readFixSize: `done` of the bytes are in, the room was made at the
      first turn. */
  function Filled(base: nat, v: Tape, data: seq<byte>, done: nat): Tape
    requires base > 0 && v.Sane() && done <= |data|
  {
    Tape(Overwrite(v.content, v.pos, data[..done]), v.pos + done, Grow(base, v.pos, v.cap, if done == 0 then 0 else |data|))
  }

  lemma FillReady(base: nat, v: Tape, data: seq<byte>, done: nat, left: nat)
    requires base > 0 && v.Sane() && Suffices(base, v.cap - v.pos, |data|) && done + left == |data|
    ensures var t := Filled(base, v, data, done); t.Sane() && Suffices(base, t.cap - t.pos, left)
  {
  }

  lemma FillMore(base: nat, v: Tape, data: seq<byte>, done: nat, left: nat, len: nat, part: seq<byte>)
    requires base > 0 && v.Sane() && Suffices(base, v.cap - v.pos, |data|) && done + left == |data| && 0 < len <= left
    requires part == data[done..done + len]
    ensures var t := Filled(base, v, data, done);
            t.Sane() && Filled(base, v, data, done + len) ==
                        Tape(Overwrite(t.content, t.pos, part), t.pos + len, Grow(base, t.pos, t.cap, left))
  {
    FillReady(base, v, data, done, left);
    OverwriteRun(v.content, v.pos, data, done, v.pos + done, len);
  }

  /** What a turn that takes `len` bytes from the socket's inbox does. */
  lemma FillTurn(base: nat, v: Tape, data: seq<byte>, done: nat, left: nat, len: nat, inbox: seq<byte>, start: nat)
    requires base > 0 && v.Sane() && Suffices(base, v.cap - v.pos, |data|) && done + left == |data| && 0 < len <= left
    requires start + |data| <= |inbox| && data == inbox[start..start + |data|]
    ensures var t := Filled(base, v, data, done);
            Filled(base, v, data, done + len) ==
            Tape(Overwrite(t.content, t.pos, inbox[start + done..start + done + len]), t.pos + len, Grow(base, t.pos, t.cap, left))
  {
    SubSlice(inbox, start, start + |data|, done, done + len, start + done, start + done + len);
    FillMore(base, v, data, done, left, len, data[done..done + len]);
  }

  lemma SubSlice(s: seq<byte>, start: nat, end: nat, a: nat, b: nat, from: nat, to: nat)
    requires start <= from <= to <= end <= |s| && from == start + a && to == start + b
    ensures s[start..end][a..b] == s[from..to]
  {
    assert forall i :: 0 <= i < b - a ==> s[start..end][a..b][i] == s[from..to][i];
  }

  lemma SendMore(view: Tape, all: seq<byte>, before: seq<byte>, done: nat, len: nat)
    requires view.Sane() && all == view.Readable() && done + len <= |all|
    ensures var t := view.(pos := view.pos + done);
            before + all[..done + len] == before + all[..done] + t.Readable()[..len]
  {
    assert all[..done + len] == all[..done] + all[done..done + len];
    assert view.(pos := view.pos + done).Readable()[..len] == all[done..done + len];
  }

  lemma PlainMore(was: seq<byte>, offset: nat, part: seq<byte>, now: nat, orig: seq<byte>,
                  inbox: seq<byte>, start: nat, mid: nat, end: nat)
    requires start <= mid <= end <= |inbox| && offset == mid - start && now == end - start <= |orig|
    requires was == inbox[start..mid] + orig[offset..] && part == inbox[mid..end]
    ensures Overwrite(was, offset, part) == inbox[start..end] + orig[now..]
  {
  }

  lemma OneSlice(v: seq<IoVec>, buffer: array<byte>, offset: nat, left: nat)
    requires v == [IoVec(buffer, offset, left)] && offset + left <= buffer.Length
    ensures InBounds(v) && Apart(v) && Total(v) == left
    ensures Gather(v) == buffer[offset..offset + left] && Contents(v) == [buffer[..]]
    ensures Bases(v) == {buffer}
  {
    assert v[1..] == [];
  }

  /** The array is whole again once its ghost copy of the nodes is brought up to date. */
  twostate lemma Absorbed(ba: ByteArray)
    requires old(ba.Valid())
    requires ba.root == old(ba.root) && ba.nodes == old(ba.nodes) && ba.owner == old(ba.owner) && ba.capacity == old(ba.capacity)
    requires ba.Repr == old(ba.Repr) && ba.position == old(ba.position) && ba.cur == old(ba.cur) && ba.size == old(ba.size)
    requires forall i {:trigger ba.nodes[i]} :: 0 <= i < |ba.nodes| ==> ba.nodes[i].next == old(ba.nodes[i].next)
    requires |ba.chunks| == |ba.nodes| && Equal(ba.baseSize, ba.chunks) && Untouched(ba.nodes, ba.chunks, [])
    requires |ba.Mem()| == |old(ba.Mem())|
    ensures ba.Valid()
  {
  }

  lemma Stored(m: seq<byte>, room: seq<byte>, used: nat, pos: nat, data: seq<byte>)
    requires m <= room && pos <= used <= |m| && pos + |data| <= |room|
    ensures Overwrite(room, pos, data)[..Max(used, pos + |data|)] == Overwrite(m[..used], pos, data)
  {
    OverwritePrefix(m, room, pos, data);
    OverwriteUsed(m, used, pos, data, Overwrite(room, pos, data));
  }

  lemma NothingBefore<T>(s: seq<T>)
    ensures [] + s == s
  {
  }

  /** The slices that write() sends: the next readable bytes. */
  method ReadSlices(ba: ByteArray, length: nat) returns (v: seq<IoVec>)
    requires ba.Valid()
    ensures InBounds(v) && Total(v) == Min(length, ba.size - ba.position)
    ensures Gather(v) == ba.View().Readable()[..Total(v)]
  {
    var out, total := ba.GetReadBuffers([], length);
    v := out;
    NothingBefore(Slices(ba.nodes, ba.baseSize, ba.position, ba.position + total));
    SliceFacts(ba, ba.position + total, v);
  }

  lemma SliceFacts(ba: ByteArray, end: nat, v: seq<IoVec>)
    requires ba.Valid() && ba.position <= end <= ba.size && v == Slices(ba.nodes, ba.baseSize, ba.position, end)
    ensures InBounds(v) && Total(v) == end - ba.position
    ensures Gather(v) == ba.View().Readable()[..end - ba.position]
  {
    ba.GatherSlices(ba.position, end);
    SliceOfSlice(ba.Mem(), ba.position, ba.size, end - ba.position);
  }
}

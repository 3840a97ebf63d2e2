/** The server's cached response (psiphon/server/meekBuffer.go): the bytes of the current response are kept
    in a chain of fixed-size buffers, extended from a shared pool while it lasts and overwritten in a
    ring after that, so that a client retry can be answered from the position it asks for. */
module CachedResponses {
  import opened Bytes

  function Concat(bufs: seq<bytes>): bytes {
    if bufs == [] then [] else bufs[0] + Concat(bufs[1..])
  }

  lemma {:induction false} ConcatAppend(a: seq<bytes>, b: seq<bytes>)
    ensures Concat(a + b) == Concat(a) + Concat(b)
  {
    if a == [] {
      assert a + b == b;
    } else {
      assert (a + b)[1..] == a[1..] + b;
      ConcatAppend(a[1..], b);
    }
  }

  lemma ConcatNext(bufs: seq<bytes>, i: nat)
    requires i < |bufs|
    ensures Concat(bufs[..i + 1]) == Concat(bufs[..i]) + bufs[i]
  {
    assert bufs[..i + 1] == bufs[..i] + [bufs[i]];
    ConcatAppend(bufs[..i], [bufs[i]]);
    assert Concat([bufs[i]]) == bufs[i] + Concat([]);
  }

  /** Offset in the flattened buffers of the start of buffer i. */
  function Offset(bufs: seq<bytes>, i: nat): nat
    requires i <= |bufs|
  {
    |Concat(bufs[..i])|
  }

  /** Splitting the flattened buffers around buffer i. */
  lemma ConcatAt(bufs: seq<bytes>, i: nat)
    requires i < |bufs|
    ensures Concat(bufs) == Concat(bufs[..i]) + bufs[i] + Concat(bufs[i + 1..])
    ensures Offset(bufs, i + 1) == Offset(bufs, i) + |bufs[i]| <= |Concat(bufs)|
  {
    assert bufs == bufs[..i] + [bufs[i]] + bufs[i + 1..];
    ConcatAppend(bufs[..i] + [bufs[i]], bufs[i + 1..]);
    ConcatAppend(bufs[..i], [bufs[i]]);
    assert bufs[..i + 1] == bufs[..i] + [bufs[i]];
    assert Concat([bufs[i]]) == bufs[i] + Concat([]);
  }

  /** Overwriting part of buffer i overwrites the same part of the flattened buffers. */
  lemma ConcatUpdate(bufs: seq<bytes>, i: nat, at: nat, data: bytes)
    requires i < |bufs| && at + |data| <= |bufs[i]|
    ensures Offset(bufs, i) + at + |data| <= |Concat(bufs)|
    ensures var p, bufs' := Offset(bufs, i) + at, bufs[i := Overwrite(bufs[i], at, data)];
            && Concat(bufs') == Overwrite(Concat(bufs), p, data)
            && Offset(bufs', i) == Offset(bufs, i)
  {
    var bufs' := bufs[i := Overwrite(bufs[i], at, data)];
    ConcatAt(bufs, i);
    ConcatAt(bufs', i);
    assert bufs'[..i] == bufs[..i] && bufs'[i + 1..] == bufs[i + 1..];
    OverwriteInside(Concat(bufs[..i]), bufs[i], Concat(bufs[i + 1..]), at, data);
  }

  function Overwrite(s: bytes, at: nat, data: bytes): (r: bytes)
    requires at + |data| <= |s|
    ensures |r| == |s|
  {
    s[..at] + data + s[at + |data|..]
  }

  lemma OverwriteInside(left: bytes, mid: bytes, right: bytes, at: nat, data: bytes)
    requires at + |data| <= |mid|
    ensures Overwrite(left + mid + right, |left| + at, data) == left + Overwrite(mid, at, data) + right
  {
  }

  /** The bytes of s from start up to done. */
  function From(s: bytes, start: nat, done: nat): bytes
    requires done <= |s|
  {
    if start <= done then s[start..done] else []
  }

  /** How many bytes are still to be skipped after done bytes of which start are unwanted. */
  function StillToSkip(start: nat, done: nat): nat {
    if start <= done then 0 else start - done
  }

  lemma FromExtends(s: bytes, start: nat, done: nat, n: nat)
    requires done + n <= |s|
    ensures From(s, start, done + n)
         == From(s, start, done) + From(s[done..done + n], StillToSkip(start, done), n)
  {
  }

  /** The part of buffer[index..index + toCopy] to send when skip bytes are still unwanted. */
  function Wanted(buffer: bytes, index: nat, toCopy: nat, skip: nat): (part: bytes)
    requires index + toCopy <= |buffer|
    ensures part == From(buffer[index..index + toCopy], skip, toCopy)
  {
    if toCopy >= skip then buffer[index + skip..index + toCopy] else []
  }

  /** One more slice sent. */
  lemma SendSlice(all: bytes, start: nat, done: nat, buffer: bytes, index: nat, n: nat)
    requires done + n <= |all| && index + n <= |buffer| && all[done..done + n] == buffer[index..index + n]
    ensures From(all, start, done + n) == From(all, start, done) + Wanted(buffer, index, n, StillToSkip(start, done))
    ensures StillToSkip(StillToSkip(start, done), n) == StillToSkip(start, done + n)
  {
    FromExtends(all, start, done, n);
  }

  /** The buffer after buffer i in a ring of n. */
  function Wrap(i: nat, n: nat): (r: nat)
    requires i < n
    ensures r == if i + 1 == n then 0 else i + 1
  {
    (i + 1) % n
  }

  function SliceSize(buffer: bytes, i: nat, left: nat): (n: nat)
    requires i <= |buffer|
  {
    if |buffer| - i < left then |buffer| - i else left
  }

  /** From the place (b, i) of byte number done of all, the rest of buffer b gives the next bytes of
      all, and the place after them is the start of the next buffer in the ring. */
  ghost predicate Continues(buffers: seq<bytes>, place: (nat, nat, nat) -> bool, all: bytes,
                            done: nat, b: nat, i: nat)
    requires done < |all|
  {
    && b < |buffers| && i < |buffers[b]|
    && var n := SliceSize(buffers[b], i, |all| - done);
    && all[done..done + n] == buffers[b][i..i + n]
    && (done + n < |all| ==> place(done + n, Wrap(b, |buffers|), 0))
  }

  ghost predicate Walk(buffers: seq<bytes>, place: (nat, nat, nat) -> bool, all: bytes) {
    forall done: nat, b: nat, i: nat {:trigger Continues(buffers, place, all, done, b, i)} |
      place(done, b, i) && done < |all| :: Continues(buffers, place, all, done, b, i)
  }

  /** The buffer contents and the positions kept by a CachedResponse. */
  datatype Ring = Ring(chunks: seq<bytes>, buffer: nat, index: nat, overwriting: bool,
                       position: nat, available: nat)
  {
    ghost predicate Shape() {
      && (forall i | 0 <= i < |chunks| :: |chunks[i]| > 0)
      && buffer < |chunks|
      && index <= |chunks[buffer]|
    }

    ghost function Capacity(): nat {
      |Concat(chunks)|
    }

    /** Write position in the flattened buffers. */
    ghost function At(): nat
      requires Shape()
    {
      Offset(chunks, buffer) + index
    }

    /** The buffers hold the last bytes of the stream: all of it until the first overwrite, and as
        many as fit after that. */
    ghost predicate Holds(stream: bytes) {
      && Shape()
      && At() <= Capacity()
      && position + available == |stream|
      && var flat := Concat(chunks);
         if overwriting then
           available == |flat| && stream[position..] == flat[At()..] + flat[..At()]
         else
           position == 0 && stream == flat[..At()]
    }

    /** How much is kept: everything, or as much as the buffers hold, and never nothing of something.
        This is the amount that answers of the relay server can be resumed from. */
    lemma KeptAmount(stream: bytes)
      requires Holds(stream)
      ensures available == if overwriting then Capacity() else |stream|
      ensures if stream == [] then available == 0 else 1 <= available <= |stream|
    {
      ConcatAt(chunks, buffer);
      assert chunks[..|chunks|] == chunks;
    }

    ghost function CopyIn(data: bytes): Ring
      requires Shape() && index + |data| <= |chunks[buffer]|
    {
      Ring(chunks[buffer := Overwrite(chunks[buffer], index, data)], buffer, index + |data|, overwriting,
           position + if overwriting then |data| else 0,
           available + if overwriting then 0 else |data|)
    }

    lemma CopyInHolds(stream: bytes, data: bytes)
      requires Holds(stream) && index + |data| <= |chunks[buffer]|
      ensures CopyIn(data).Holds(stream + data)
    {
      var r := CopyIn(data);
      ConcatUpdate(chunks, buffer, index, data);
      var flat, at, flat' := Concat(chunks), At(), Concat(r.chunks);
      assert r.At() == at + |data|;
      if overwriting {
        calc {
          (stream + data)[r.position..];
          (stream[position..] + data)[|data|..];
          (flat[at..] + flat[..at] + data)[|data|..];
          flat[at + |data|..] + flat[..at] + data;
          flat'[r.At()..] + flat'[..r.At()];
        }
      }
    }

    /** Moving on from a full buffer, with or without an added buffer. */
    ghost function Advance(added: seq<bytes>): Ring
      requires Shape()
    {
      var all := chunks + added;
      if buffer + 1 < |all| then Ring(all, buffer + 1, 0, overwriting, position, available)
      else Ring(all, 0, 0, true, position, available)
    }

    /** A new buffer at the end: nothing moves. */
    lemma AdvanceToNew(stream: bytes, added: bytes)
      requires Holds(stream) && index == |chunks[buffer]| && |added| > 0 && !overwriting && buffer == |chunks| - 1
      ensures Ring(chunks + [added], buffer + 1, 0, overwriting, position, available).Holds(stream)
    {
      ConcatAppend(chunks, [added]);
      ConcatAt(chunks, buffer);
      assert chunks[..|chunks|] == chunks && (chunks + [added])[..|chunks|] == chunks;
    }

    /** On to the next buffer: the same place in the flattened buffers. */
    lemma AdvanceToNext(stream: bytes)
      requires Holds(stream) && index == |chunks[buffer]| && buffer + 1 < |chunks|
      ensures Ring(chunks, buffer + 1, 0, overwriting, position, available).Holds(stream)
    {
      ConcatAt(chunks, buffer);
      assert Ring(chunks, buffer + 1, 0, overwriting, position, available).At() == At();
    }

    /** Around to the first buffer: from the end to the start of the flattened buffers. */
    lemma AdvanceAround(stream: bytes)
      requires Holds(stream) && index == |chunks[buffer]| && buffer + 1 == |chunks|
      ensures Ring(chunks, 0, 0, true, position, available).Holds(stream)
    {
      ConcatAt(chunks, buffer);
      assert chunks[..|chunks|] == chunks && chunks[..0] == [];
      var flat := Concat(chunks);
      assert At() == |flat| && flat[|flat|..] + flat[..|flat|] == flat && flat[0..] + flat[..0] == flat;
    }

    lemma AdvanceHolds(stream: bytes, added: seq<bytes>)
      requires Holds(stream) && index == |chunks[buffer]|
      requires |added| <= 1 && forall b | b in added :: |b| > 0
      requires added != [] ==> !overwriting && buffer == |chunks| - 1
      ensures Advance(added).Holds(stream)
    {
      if added != [] {
        assert added == [added[0]];
        AdvanceToNew(stream, added[0]);
      } else {
        assert chunks + added == chunks;
        if buffer + 1 < |chunks| {
          AdvanceToNext(stream);
        } else {
          AdvanceAround(stream);
        }
      }
    }

    /** The cached bytes, oldest first. */
    ghost function Cached(): bytes
      requires Shape() && At() <= Capacity()
    {
      var flat := Concat(chunks);
      if overwriting then flat[At()..] + flat[..At()] else flat[..At()]
    }

    /** Position in the flattened buffers of the cached byte number done. */
    ghost function Place(done: nat): int
      requires Shape()
    {
      if !overwriting then done
      else if At() + done < Capacity() then At() + done
      else At() + done - Capacity()
    }

    ghost predicate IsPlace(done: nat, b: nat, i: nat)
      requires Shape()
    {
      b < |chunks| && i < |chunks[b]| && Offset(chunks, b) + i == Place(done)
    }

    /** Cached bytes that lie together in the flattened buffers. */
    lemma CachedSlice(stream: bytes, done: nat, n: nat)
      requires Holds(stream) && done + n <= available
      requires 0 <= Place(done) && Place(done) + n <= Capacity()
      ensures |Cached()| == available
      ensures Cached()[done..done + n] == Concat(chunks)[Place(done)..Place(done) + n]
    {
    }

    /** Reading on from a place to the end of its buffer, or of the cached bytes, gives the next
        cached bytes. */
    lemma SliceAt(stream: bytes, done: nat, b: nat, i: nat, n: nat)
      requires Holds(stream) && done < available && IsPlace(done, b, i)
      requires i + n <= |chunks[b]| && done + n <= available
      ensures |Cached()| == available && Cached()[done..done + n] == chunks[b][i..i + n]
    {
      assert Place(done) + n <= Capacity() && Concat(chunks)[Place(done)..Place(done) + n] == chunks[b][i..i + n] by {
        ConcatAt(chunks, b);
      }
      CachedSlice(stream, done, n);
    }

    /** The place after the last byte of a buffer is the start of the next one. */
    lemma PlaceAfter(stream: bytes, done: nat, b: nat, i: nat)
      requires Holds(stream) && IsPlace(done, b, i)
      requires done + |chunks[b]| - i < available
      ensures IsPlace(done + |chunks[b]| - i, Wrap(b, |chunks|), 0)
    {
      ConcatAt(chunks, b);
      assert chunks[..|chunks|] == chunks && chunks[..0] == [];
    }

    /** The cached bytes can be walked buffer by buffer. */
    lemma CachedWalk(stream: bytes)
      requires Holds(stream)
      ensures Walk(chunks, (done: nat, b: nat, i: nat) => Shape() && IsPlace(done, b, i), stream[position..])
    {
      var all, place := stream[position..], (done: nat, b: nat, i: nat) => Shape() && IsPlace(done, b, i);
      forall done: nat, b: nat, i: nat | place(done, b, i) && done < |all|
        ensures Continues(chunks, place, all, done, b, i)
      {
        var n := SliceSize(chunks[b], i, |all| - done);
        SliceAt(stream, done, b, i, n);
        if done + n < |all| {
          PlaceAfter(stream, done, b, i);
        }
      }
    }

    /** The first place, where the oldest cached byte is. */
    lemma FirstPlace(stream: bytes)
      requires Holds(stream) && available > 0
      ensures if !overwriting then IsPlace(0, 0, 0)
              else if index < |chunks[buffer]| then IsPlace(0, buffer, index)
              else IsPlace(0, Wrap(buffer, |chunks|), 0)
    {
      ConcatAt(chunks, buffer);
      assert chunks[..|chunks|] == chunks && chunks[..0] == [];
    }
  }

  /** The pool of buffers shared by the sessions: how many are left. */
  class BufferPool {
    const bufferSize: nat
    const limit: nat
    var available: nat

    constructor (bufferSize: nat, bufferCount: nat, limit: nat)
      requires bufferSize > 0
      ensures this.bufferSize == bufferSize && this.limit == limit && available == bufferCount
    {
      this.bufferSize, this.limit, available := bufferSize, limit, bufferCount;
    }

    /** Takes a buffer, holding whatever its last user left in it, when there is one. */
    method Get() returns (buffer: Option<bytes>)
      modifies this
      ensures old(available) == 0 <==> buffer.None?
      ensures buffer.None? ==> available == old(available)
      ensures buffer.Some? ==> |buffer.value| == bufferSize && available == old(available) - 1
    {
      if available == 0 {
        return None;
      }
      available := available - 1;
      var stale: byte :| true;
      return Some(seq(bufferSize, _ => stale));
    }
  }

  class CachedResponse {
    var buffers: seq<bytes>
    var readPosition: nat
    var readAvailable: nat
    var writeIndex: nat
    var writeBufferIndex: nat
    var overwriting: bool
    const pool: BufferPool
    /** Everything written since the last Reset. */
    ghost var stream: bytes

    ghost function View(): Ring
      reads this
    {
      Ring(buffers, writeBufferIndex, writeIndex, overwriting, readPosition, readAvailable)
    }

    ghost predicate Valid()
      reads this
    {
      pool.bufferSize > 0 && View().Holds(stream)
    }

    constructor (bufferSize: nat, pool: BufferPool)
      requires bufferSize > 0 && pool.bufferSize > 0
      ensures Valid() && stream == [] && this.pool == pool
      ensures |buffers| == 1 && |buffers[0]| == bufferSize
    {
      this.pool := pool;
      buffers := [seq(bufferSize, _ => 0)];
      readPosition, readAvailable, writeIndex, writeBufferIndex, overwriting := 0, 0, 0, 0, false;
      stream := [];
    }

    /** Forgets the response and gives the borrowed buffers back. */
    method Reset()
      requires Valid()
      modifies this, pool
      ensures Valid() && stream == [] && buffers == old(buffers[..1])
      ensures pool.available + |buffers| == old(pool.available + |buffers|)
    {
      pool.available := pool.available + |buffers| - 1;
      buffers := buffers[..1];
      readPosition, readAvailable, writeIndex, writeBufferIndex, overwriting := 0, 0, 0, 0, false;
      stream := [];
      assert buffers[..0] == [];
    }

    /** Whether a retry can be answered from the given response position: something was written, and
        the response from there on is still held. */
    predicate HasPosition(position: nat)
      requires Valid()
      reads this
      ensures HasPosition(position) <==> stream != [] && |stream| - readAvailable <= position <= |stream|
    {
      View().KeptAmount(stream);
      readAvailable != 0 && readPosition <= position <= readPosition + readAvailable
    }

    /** Appends data. All of it counts as written; the oldest bytes are dropped once the buffers
        are full and the pool gives no more. */
    method Write(data: bytes)
      requires Valid()
      modifies this, pool
      ensures Valid() && stream == old(stream) + data
      ensures pool.available + |buffers| == old(pool.available + |buffers|)
    {
      var dataIndex := 0;
      while dataIndex < |data|
        invariant dataIndex <= |data|
        invariant Valid() && stream == old(stream) + data[..dataIndex]
        invariant pool.available + |buffers| == old(pool.available + |buffers|)
        decreases |data| - dataIndex, writeIndex
      {
        var writeLen := WriteSome(data[dataIndex..]);
        assert data[..dataIndex] + data[dataIndex..][..writeLen] == data[..dataIndex + writeLen];
        dataIndex := dataIndex + writeLen;
      }
    }

    /** Appends the parts of a response one after the other. */
    method WriteAll(parts: seq<bytes>)
      requires Valid()
      modifies this, pool
      ensures Valid() && stream == old(stream) + Concat(parts)
    {
      for i := 0 to |parts|
        invariant Valid() && stream == old(stream) + Concat(parts[..i])
      {
        ConcatNext(parts, i);
        Write(parts[i]);
      }
      assert parts[..|parts|] == parts;
    }

    /** One turn of the Write loop: fills the current buffer, and moves on when it is too small. */
    method WriteSome(data: bytes) returns (writeLen: nat)
      requires Valid() && data != []
      modifies this, pool
      ensures writeLen <= |data| && Valid() && stream == old(stream) + data[..writeLen]
      ensures pool.available + |buffers| == old(pool.available + |buffers|)
      ensures writeLen > 0 || writeIndex < old(writeIndex)
    {
      var canWriteLen := |buffers[writeBufferIndex]| - writeIndex;
      writeLen := if canWriteLen < |data| then canWriteLen else |data|;
      CopyIn(data[..writeLen]);
      if |data| > canWriteLen {
        NextBuffer();
      }
    }

    /** Writes into the space left in the current buffer. */
    method CopyIn(data: bytes)
      requires Valid() && writeIndex + |data| <= |buffers[writeBufferIndex]|
      modifies this
      ensures Valid() && stream == old(stream) + data && View() == old(View()).CopyIn(data)
    {
      View().CopyInHolds(stream, data);
      buffers := buffers[writeBufferIndex := Overwrite(buffers[writeBufferIndex], writeIndex, data)];
      writeIndex := writeIndex + |data|;
      if overwriting {
        readPosition := readPosition + |data|;
      } else {
        readAvailable := readAvailable + |data|;
      }
      stream := stream + data;
    }

    /** Moves on from a full buffer: to a new pool buffer, to the next buffer, or around to the
        first one, from where on older data is overwritten. */
    method NextBuffer()
      requires Valid() && writeIndex == |buffers[writeBufferIndex]|
      modifies this, pool
      ensures Valid() && stream == old(stream) && writeIndex == 0
      ensures pool.available + |buffers| == old(pool.available + |buffers|)
    {
      ghost var added := [];
      if writeBufferIndex == |buffers| - 1 && !overwriting && |buffers| - 1 < pool.limit {
        var extended := pool.Get();
        if extended.Some? {
          added := [extended.value];
          View().AdvanceHolds(stream, added);
          buffers := buffers + [extended.value];
        }
      }
      writeBufferIndex := writeBufferIndex + 1;
      if writeBufferIndex >= |buffers| {
        writeBufferIndex, overwriting := 0, true;
      }
      writeIndex := 0;
      assert View() == old(View()).Advance(added);
      old(View()).AdvanceHolds(stream, added);
    }

    /** Sends the cached bytes from the given position on; an error when they are gone. */
    method CopyFromPosition(position: nat) returns (sent: Option<bytes>)
      requires Valid()
      ensures sent.None? <==> readAvailable > 0 && position < readPosition
      ensures sent.Some? && position <= |stream| ==> sent.value == stream[position..]
      ensures sent.Some? && position > |stream| ==> sent.value == []
    {
      if readAvailable > 0 && readPosition > position {
        return None;
      }
      if position == readPosition + readAvailable {
        return Some([]);
      }
      var index: nat, bufferIndex: nat := 0, 0;
      if overwriting {
        index, bufferIndex := writeIndex, writeBufferIndex;
        if index >= |buffers[bufferIndex]| {
          index, bufferIndex := 0, Wrap(bufferIndex, |buffers|);
        }
      }
      var skip := position - readPosition;
      if readAvailable > 0 {
        View().FirstPlace(stream);
      }
      ghost var view := View();
      view.CachedWalk(stream);
      var out := CopyOut(skip, bufferIndex, index,
                         (done: nat, b: nat, i: nat) => view.Shape() && view.IsPlace(done, b, i),
                         stream[readPosition..]);
      return Some(out);
    }

    /** The loop of CopyFromPosition: goes over all cached bytes from the oldest one and sends those
        after the first start ones. */
    method CopyOut(start: nat, first: nat, firstIndex: nat, ghost place: (nat, nat, nat) -> bool, ghost all: bytes)
      returns (out: bytes)
      requires |all| == readAvailable && Walk(buffers, place, all)
      requires readAvailable > 0 ==> place(0, first, firstIndex)
      ensures out == From(all, start, |all|)
    {
      out := [];
      var skip, available: nat, bufferIndex, index := start, readAvailable, first, firstIndex;
      while available > 0
        invariant available <= |all|
        invariant skip == StillToSkip(start, |all| - available)
        invariant out == From(all, start, |all| - available)
        invariant available > 0 ==> place(|all| - available, bufferIndex, index)
      {
        ghost var done := |all| - available;
        assert Continues(buffers, place, all, done, bufferIndex, index);
        var buffer := buffers[bufferIndex];
        var toCopy := SliceSize(buffer, index, available);
        SendSlice(all, start, done, buffer, index, toCopy);
        available := available - toCopy;
        out := out + Wanted(buffer, index, toCopy, skip);
        skip := StillToSkip(skip, toCopy);
        index, bufferIndex := 0, Wrap(bufferIndex, |buffers|);
      }
    }
  }
}

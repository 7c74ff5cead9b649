/** The chunked byte buffer: a list of buffers with a readable part each, seen as
    one sequence of bytes. */
module BufferView {
  import opened Words

  type Bytes = seq<u8>

  const DEFAULT_BUFFER_SIZE := 8144

  /** The size of a machine word: short writes are batched up to it. */
  const MIN_BATCH := 8

  /** One buffer: the bytes from read to write can be read. */
  datatype Buffer = Buffer(data: Bytes, read: nat, write: nat) {
    predicate Valid() { read <= write <= |data| }
    predicate Full() { write == |data| }

    function ReadSlice(): (r: Bytes)
      requires Valid()
    {
      data[read..write]
    }
  }

  predicate AllValid(bufs: seq<Buffer>) { forall i :: 0 <= i < |bufs| ==> bufs[i].Valid() }

  /** The bytes of a list of buffers. */
  function Contents(bufs: seq<Buffer>): (r: Bytes)
    requires AllValid(bufs)
  {
    if bufs == [] then [] else bufs[0].ReadSlice() + Contents(bufs[1..])
  }

  lemma {:induction false} ContentsConcat(a: seq<Buffer>, b: seq<Buffer>)
    requires AllValid(a) && AllValid(b)
    ensures Contents(a + b) == Contents(a) + Contents(b)
  {
    if a == [] {
      assert a + b == b;
    } else {
      assert (a + b)[1..] == a[1..] + b;
      ContentsConcat(a[1..], b);
    }
  }

  lemma ContentsOne(b: Buffer)
    requires b.Valid()
    ensures Contents([b]) == b.ReadSlice()
  {
    assert [b][1..] == [];
  }

  lemma ValidParts(bufs: seq<Buffer>, i: nat)
    requires AllValid(bufs) && i <= |bufs|
    ensures AllValid(bufs[..i]) && AllValid(bufs[i..])
  {
  }

  lemma ContentsSplit(bufs: seq<Buffer>, i: nat)
    requires AllValid(bufs) && i <= |bufs|
    ensures Contents(bufs) == Contents(bufs[..i]) + Contents(bufs[i..])
    ensures i == |bufs| ==> Contents(bufs) == Contents(bufs[..i])
  {
    hide Contents, AllValid;
    ValidParts(bufs, i);
    assert bufs == bufs[..i] + bufs[i..];
    ContentsConcat(bufs[..i], bufs[i..]);
    if i == |bufs| { assert bufs[..i] == bufs; }
  }

  /** The bytes up to and with one more buffer. */
  lemma ContentsNext(bufs: seq<Buffer>, i: nat)
    requires AllValid(bufs) && i < |bufs|
    ensures Contents(bufs[..i + 1]) == Contents(bufs[..i]) + bufs[i].ReadSlice()
    ensures Contents(bufs) == Contents(bufs[..i]) + bufs[i].ReadSlice() + Contents(bufs[i + 1..])
  {
    hide Contents;
    var a := bufs[..i];
    assert bufs[..i + 1] == a + [bufs[i]];
    ContentsConcat(a, [bufs[i]]);
    ContentsOne(bufs[i]);
    ContentsSplit(bufs, i + 1);
  }

  /** The last buffer apart. */
  lemma ContentsLast(bufs: seq<Buffer>)
    requires AllValid(bufs) && bufs != []
    ensures Contents(bufs) == Contents(bufs[..|bufs| - 1]) + bufs[|bufs| - 1].ReadSlice()
  {
    ContentsNext(bufs, |bufs| - 1);
    assert bufs[..|bufs|] == bufs;
  }

  /** The last buffer is replaced. */
  lemma ContentsReplaceLast(bufs: seq<Buffer>, b: Buffer)
    requires AllValid(bufs) && bufs != [] && b.Valid()
    ensures Contents(bufs[..|bufs| - 1] + [b]) == Contents(bufs[..|bufs| - 1]) + b.ReadSlice()
  {
    ContentsConcat(bufs[..|bufs| - 1], [b]);
    ContentsOne(b);
  }

  /** Bytes are copied into a buffer's storage. */
  function Splice(data: Bytes, at: nat, bytes: Bytes): (r: Bytes)
    requires at + |bytes| <= |data|
    ensures |r| == |data| && r[at..at + |bytes|] == bytes
    ensures forall i :: 0 <= i < at || at + |bytes| <= i < |data| ==> r[i] == data[i]
  {
    data[..at] + bytes + data[at + |bytes|..]
  }

  function Zeros(n: nat): (r: Bytes)
    ensures |r| == n && forall i :: 0 <= i < n ==> r[i] == 0
  {
    seq(n, i => 0)
  }

  function Min(a: int, b: int): int { if a < b then a else b }
  function Max(a: int, b: int): int { if a < b then b else a }

  /** Appending to a buffer with room for it. */
  lemma Written(b: Buffer, bytes: Bytes)
    requires b.Valid() && |bytes| <= |b.data| - b.write
    ensures var c := Buffer(Splice(b.data, b.write, bytes), b.read, b.write + |bytes|);
            c.Valid() && c.ReadSlice() == b.ReadSlice() + bytes
  {
  }

  /** Prepending to a buffer with room for it. */
  lemma Preceded(b: Buffer, bytes: Bytes)
    requires b.Valid() && |bytes| <= b.read
    ensures var c := Buffer(Splice(b.data, b.read - |bytes|, bytes), b.read - |bytes|, b.write);
            c.Valid() && c.ReadSlice() == bytes + b.ReadSlice()
  {
  }

  lemma KeptSlice(b: Buffer, n: nat)
    requires b.Valid() && n <= b.write - b.read
    ensures b.(write := b.read + n).Valid() && b.(write := b.read + n).ReadSlice() == b.ReadSlice()[..n]
  {
    assert b.data[b.read..b.read + n] == b.data[b.read..b.write][..n];
  }

  lemma DroppedSlice(b: Buffer, n: nat)
    requires b.Valid() && n <= b.write - b.read
    ensures b.(read := b.read + n).Valid() && b.(read := b.read + n).ReadSlice() == b.ReadSlice()[n..]
  {
    assert b.data[b.read + n..b.write] == b.data[b.read..b.write][n..];
  }

  lemma FrontGrows(bytes: Bytes, was: Bytes, rest: Bytes, before: Bytes, data: Bytes, data': Bytes)
    requires rest <= was <= bytes && data == bytes[|was|..] + before && data' == was[|rest|..] + data
    ensures rest <= bytes && data' == bytes[|rest|..] + before
  {
    assert was[|rest|..] + bytes[|was|..] == bytes[|rest|..];
  }

  // ----- what ReadToWriter reports -----

  datatype ReadError = NoError | EndOfData | WriterFailed

  /** The byte at a place is written as part of a batch, by a loop that has come to
      a buffer, an offset and a count of bytes. */
  ghost predicate Batched(bs: seq<Buffer>, i: nat, offset: nat, done: nat, count: int, size: int, at: nat)
    decreases |bs| - i
  {
    if i >= |bs| || done >= count then false else
    var sz := bs[i].write - bs[i].read;
    if sz <= offset then (if sz < 0 then false else Batched(bs, i + 1, offset - sz, done, count, size, at))
    else if sz - offset < MIN_BATCH && count - done >= MIN_BATCH && size - done >= MIN_BATCH then
      || done <= at < done + MIN_BATCH
      || (done + MIN_BATCH != size && Batched(bs, i + 1, MIN_BATCH - (sz - offset), done + MIN_BATCH, count, size, at))
    else
      at >= done + Min(sz - offset, count - done)
      && Batched(bs, i + 1, 0, done + Min(sz - offset, count - done), count, size, at)
  }

  /** The count and the error that such a loop reports, with a writer that takes so
      many bytes in all: it stops at the first write of a single buffer that is cut
      short, or after a batch at the end of the data. */
  ghost function Reported(bs: seq<Buffer>, i: nat, offset: nat, done: nat, count: int, size: int, room: nat)
    : (r: (nat, ReadError))
    decreases |bs| - i
  {
    if i >= |bs| || done >= count then (done, NoError) else
    var sz := bs[i].write - bs[i].read;
    if sz <= offset then
      if sz < 0 then (done, NoError) else Reported(bs, i + 1, offset - sz, done, count, size, room)
    else if sz - offset < MIN_BATCH && count - done >= MIN_BATCH && size - done >= MIN_BATCH then
      if done + MIN_BATCH == size then (done + MIN_BATCH, EndOfData)
      else Reported(bs, i + 1, MIN_BATCH - (sz - offset), done + MIN_BATCH, count, size, room)
    else
      var n := Min(sz - offset, count - done);
      if room < done + n then (Max(done, room), WriterFailed) else Reported(bs, i + 1, 0, done + n, count, size, room)
  }

  /** Whether the byte at a place is written in a batch is decided by the rest of
      the loop, unless the loop is past it, and then it was. What is reported is
      decided by the rest of the loop. */
  ghost predicate OnTrack(bs: seq<Buffer>, i: nat, offset: nat, done: nat, count: int, size: int, at: nat) {
    && (Batched(bs, 0, 0, 0, count, size, at) <==> done > at || Batched(bs, i, offset, done, count, size, at))
    && Reported(bs, 0, 0, 0, count, size, at) == Reported(bs, i, offset, done, count, size, at)
  }

  /** The loop has stopped with this count and error. */
  ghost predicate Stopped(bs: seq<Buffer>, done: nat, err: ReadError, count: int, size: int, at: nat) {
    && (Batched(bs, 0, 0, 0, count, size, at) <==> done > at)
    && Reported(bs, 0, 0, 0, count, size, at) == (done, err)
  }

  lemma TrackBegins(bs: seq<Buffer>, count: int, size: int, at: nat)
    ensures OnTrack(bs, 0, 0, 0, count, size, at)
  {
  }

  lemma TrackEnds(bs: seq<Buffer>, i: nat, offset: nat, done: nat, count: int, size: int, at: nat)
    requires OnTrack(bs, i, offset, done, count, size, at) && (i >= |bs| || done >= count)
    ensures Stopped(bs, done, NoError, count, size, at)
  {
  }

  lemma TrackSkips(bs: seq<Buffer>, i: nat, offset: nat, done: nat, count: int, size: int, at: nat)
    requires i < |bs| && done < count && bs[i].Valid() && bs[i].write - bs[i].read <= offset
    requires OnTrack(bs, i, offset, done, count, size, at)
    ensures OnTrack(bs, i + 1, offset - (bs[i].write - bs[i].read), done, count, size, at)
  {
  }

  lemma TrackBatches(bs: seq<Buffer>, i: nat, offset: nat, done: nat, count: int, size: int, at: nat)
    requires i < |bs| && done < count && 0 < bs[i].write - bs[i].read - offset < MIN_BATCH
    requires count - done >= MIN_BATCH && size - done >= MIN_BATCH && OnTrack(bs, i, offset, done, count, size, at)
    ensures if done + MIN_BATCH == size then Stopped(bs, size, EndOfData, count, size, at)
            else OnTrack(bs, i + 1, MIN_BATCH - (bs[i].write - bs[i].read - offset), done + MIN_BATCH, count, size, at)
  {
  }

  lemma TrackWrites(bs: seq<Buffer>, i: nat, offset: nat, done: nat, count: int, size: int, at: nat, n: nat)
    requires i < |bs| && done < count && 0 < bs[i].write - bs[i].read - offset
    requires bs[i].write - bs[i].read - offset >= MIN_BATCH || count - done < MIN_BATCH || size - done < MIN_BATCH
    requires n == Min(bs[i].write - bs[i].read - offset, count - done) && OnTrack(bs, i, offset, done, count, size, at)
    ensures if at < done + n then Stopped(bs, Max(done, at), WriterFailed, count, size, at)
            else OnTrack(bs, i + 1, 0, done + n, count, size, at)
  {
  }

  lemma StoppedMeans(bs: seq<Buffer>, done: nat, err: ReadError, count: int, size: int, at: nat, want: nat)
    requires Stopped(bs, done, err, count, size, at) && Min(want, at) <= done <= want
    ensures (done, err) == Reported(bs, 0, 0, 0, count, size, at)
    ensures done == Min(want, at) <==> want <= at || !Batched(bs, 0, 0, 0, count, size, at)
  {
  }

  /** Four bytes and eight: a writer that takes nothing is said to have taken eight
      bytes, those of a batch, and fails only then. */
  lemma BatchedExample(a: Buffer, b: Buffer)
    requires a.read + 4 == a.write && b.read + 8 == b.write
    ensures Batched([a, b], 0, 0, 0, 12, 12, 0) && Reported([a, b], 0, 0, 0, 12, 12, 0) == (8, WriterFailed)
  {
    assert Reported([a, b], 1, 4, 8, 12, 12, 0) == (8, WriterFailed);
  }

  /** A writer that takes so many bytes and then fails. */
  class Writer {
    var out: Bytes
    var room: nat

    method Write(bytes: Bytes) returns (n: nat)
      modifies this
      ensures n == Min(|bytes|, old(room)) && out == old(out) + bytes[..n] && room == old(room) - n
    {
      n := Min(|bytes|, room);
      out, room := out + bytes[..n], room - n;
    }
  }

  class View {
    var bufs: seq<Buffer>
    var size: int
    var bufferSize: int

    ghost predicate Valid()
      reads this
    {
      AllValid(bufs) && size == |Contents(bufs)|
    }

    ghost function Data(): Bytes
      reads this
      requires Valid()
    {
      Contents(bufs)
    }

    constructor ()
      ensures Valid() && Data() == []
    {
      bufs, size, bufferSize := [], 0, 0;
    }

    /** An empty buffer from the pool. */
    method Get() returns (b: Buffer)
      modifies this`bufferSize
      ensures bufferSize == (if old(bufferSize) <= 0 then DEFAULT_BUFFER_SIZE else old(bufferSize))
      ensures b == Buffer(Zeros(bufferSize), 0, 0) && bufferSize > 0
    {
      if bufferSize <= 0 { bufferSize := DEFAULT_BUFFER_SIZE; }
      b := Buffer(Zeros(bufferSize), 0, 0);
    }

    /** There is room in the last buffer afterwards. */
    method EnsureRoom()
      requires Valid()
      modifies this
      ensures Valid() && Data() == old(Data()) && size == old(size) && bufs != [] && !bufs[|bufs| - 1].Full()
    {
      if bufs == [] || bufs[|bufs| - 1].Full() {
        var b := Get();
        ContentsConcat(bufs, [b]);
        ContentsOne(b);
        bufs := bufs + [b];
      }
    }

    /** The last buffer, which has room, takes some more bytes. */
    method WriteLast(bytes: Bytes)
      requires Valid() && bufs != [] && |bytes| <= |bufs[|bufs| - 1].data| - bufs[|bufs| - 1].write
      modifies this
      ensures Valid() && Data() == old(Data()) + bytes && size == old(size) + |bytes| && bufferSize == old(bufferSize)
    {
      var b := bufs[|bufs| - 1];
      var c := Buffer(Splice(b.data, b.write, bytes), b.read, b.write + |bytes|);
      Written(b, bytes);
      ContentsLast(bufs);
      ContentsReplaceLast(bufs, c);
      bufs := bufs[..|bufs| - 1] + [c];
      size := size + |bytes|;
    }

    method Append(bytes: Bytes)
      requires Valid()
      modifies this
      ensures Valid() && Data() == old(Data()) + bytes
    {
      hide Contents;
      var done := 0;
      while done < |bytes|
        invariant 0 <= done <= |bytes| && Valid() && Data() == old(Data()) + bytes[..done]
      {
        EnsureRoom();
        var b := bufs[|bufs| - 1];
        var n := Min(|b.data| - b.write, |bytes| - done);
        WriteLast(bytes[done..done + n]);
        assert bytes[..done] + bytes[done..done + n] == bytes[..done + n];
        done := done + n;
      }
      assert bytes[..done] == bytes;
    }

    /** Grow to length bytes. New bytes are zero if that is asked for. */
    method Grow(length: int, zero: bool)
      requires Valid() && length >= 0
      modifies this
      ensures Valid() && |Data()| == Max(length, |old(Data())|) && old(Data()) <= Data()
      ensures zero ==> forall i :: |old(Data())| <= i < |Data()| ==> Data()[i] == 0
    {
      hide Contents;
      while size < length
        invariant Valid() && size <= Max(length, |old(Data())|) && old(Data()) <= Data()
        invariant zero ==> forall i :: |old(Data())| <= i < |Data()| ==> Data()[i] == 0
        decreases length - size
      {
        EnsureRoom();
        var b := bufs[|bufs| - 1];
        var n := Min(|b.data| - b.write, length - size);
        WriteLast(if zero then Zeros(n) else b.data[b.write..b.write + n]);
      }
    }

    method Prepend(bytes: Bytes)
      requires Valid()
      modifies this
      ensures Valid() && Data() == bytes + old(Data())
    {
      hide Contents, AllValid;
      ghost var before := Data();
      var rest := bytes;
      assert bytes[|rest|..] + before == before;
      if bufs != [] && bufs[0].read > 0 {
        rest := FillFront(bytes);
      }
      while |rest| > 0
        invariant Valid() && rest <= bytes && Data() == bytes[|rest|..] + before
        decreases |rest|
      {
        ghost var was := rest;
        ghost var data := Data();
        rest := PushFront(rest);
        FrontGrows(bytes, was, rest, before, data, Data());
      }
    }

    /** Put as many of the last bytes as fit at the end of a new first buffer. What is
        left over. */
    method PushFront(bytes: Bytes) returns (rest: Bytes)
      requires Valid() && |bytes| > 0
      modifies this
      ensures Valid() && rest < bytes && Data() == bytes[|rest|..] + old(Data())
    {
      hide Contents;
      var b := Get();
      var dStart := Max(|bytes| - |b.data|, 0);
      var tail := bytes[dStart..];
      var c := Buffer(Splice(b.data, |b.data| - |tail|, tail), |b.data| - |tail|, |b.data|);
      ContentsConcat([c], bufs);
      ContentsOne(c);
      bufs, size := [c] + bufs, size + |tail|;
      rest := bytes[..dStart];
    }

    /** Fill up the free bytes before the first buffer's. What is left over. */
    method FillFront(bytes: Bytes) returns (rest: Bytes)
      requires Valid() && bufs != [] && bufs[0].read > 0
      modifies this
      ensures Valid() && rest <= bytes && Data() == bytes[|rest|..] + old(Data()) && bufferSize == old(bufferSize)
    {
      var b := bufs[0];
      var dStart := Max(|bytes| - b.read, 0);
      var tail := bytes[dStart..];
      var c := Buffer(Splice(b.data, b.read - |tail|, tail), b.read - |tail|, b.write);
      Preceded(b, tail);
      ContentsConcat([c], bufs[1..]);
      ContentsOne(c);
      bufs, size := [c] + bufs[1..], size + |tail|;
      rest := bytes[..dStart];
    }

    method TrimFront(count: int)
      requires Valid()
      modifies this
      ensures Valid() && Data() == old(Data())[Max(0, Min(count, |old(Data())|))..]
    {
      AdvanceRead(if count >= size then size else count);
    }

    /** Drop so many bytes, of which there are enough. */
    method AdvanceRead(count: int)
      requires Valid() && count <= size
      modifies this
      ensures Valid() && Data() == old(Data())[Max(0, count)..]
    {
      var left := count;
      ghost var before := Data();
      while bufs != [] && left > 0
        invariant Valid() && left <= size && left <= Max(0, count)
        invariant if count <= 0 then left == count && Data() == before
                    else 0 <= left && Data() == before[count - left..]
        decreases |bufs|
      {
        var b := bufs[0];
        var sz := b.write - b.read;
        if sz > left {
          var c := b.(read := b.read + left);
          ContentsConcat([c], bufs[1..]);
          ContentsOne(c);
          DroppedSlice(b, left);
          bufs, size, left := [c] + bufs[1..], size - left, 0;
          break;
        }
        bufs, left, size := bufs[1..], left - sz, size - sz;
      }
    }

    method Truncate(length: int)
      requires Valid() && length >= 0
      modifies this
      ensures Valid() && Data() == old(Data())[..Min(length, |old(Data())|)]
    {
      hide Contents;
      if length >= size { return; }
      ghost var before := Data();
      while bufs != [] && size > length
        invariant Valid() && length <= size <= |before| && Data() == before[..size]
        decreases |bufs|
      {
        ContentsLast(bufs);
        var b := bufs[|bufs| - 1];
        var sz := b.write - b.read;
        if size - sz < length {
          var c := b.(write := b.read + (length - (size - sz)));
          ContentsReplaceLast(bufs, c);
          KeptSlice(b, length - (size - sz));
          bufs, size := bufs[..|bufs| - 1] + [c], length;
          break;
        }
        bufs, size := bufs[..|bufs| - 1], size - sz;
      }
      NoBytes(bufs);
    }

    /** The other view's bytes are moved to the end of this one. */
    method Merge(other: View)
      requires Valid() && other.Valid() && other != this
      modifies this, other
      ensures Valid() && other.Valid() && Data() == old(Data()) + old(other.Data()) && other.Data() == []
    {
      ghost var mine, theirs := bufs, other.bufs;
      while other.bufs != []
        invariant AllValid(bufs) && AllValid(other.bufs) && bufs + other.bufs == mine + theirs
        invariant size == old(size) && other.size == old(other.size)
        decreases |other.bufs|
      {
        bufs, other.bufs := bufs + [other.bufs[0]], other.bufs[1..];
      }
      size, other.size := size + other.size, 0;
      assert bufs == mine + theirs;
      ContentsConcat(mine, theirs);
    }

    /** Read from an offset into p. EOF is reported at the end of the view, also when
        all of p could be filled. */
    method ReadAt(p: array<u8>, offset: nat) returns (done: nat, eof: bool)
      requires Valid()
      modifies p
      ensures done == Max(0, Min(p.Length, size - offset))
      ensures p[..done] == Data()[Min(offset, size)..Min(offset, size) + done] && p[done..] == old(p[done..])
      ensures eof <==> done < p.Length || offset + done == size
    {
      hide Contents, AllValid;
      done := ReadBuffers(bufs, p, offset);
      SliceIs(p[..done], Data(), offset);
      eof := done < p.Length || offset + done == size;
    }

    /** Write the first count bytes to w. Where few bytes are left in a buffer, a
        batch is collected across buffers, and its write is not checked. */
    method ReadToWriter(w: Writer, count: int) returns (done: nat, err: ReadError)
      requires Valid()
      modifies w
      ensures var want := Max(0, Min(count, size));
              && w.out == old(w.out) + Data()[..Min(want, old(w.room))]
              && Min(want, old(w.room)) <= done <= want
              && (done == Min(want, old(w.room)) <==>
                  want <= old(w.room) || !Batched(bufs, 0, 0, 0, count, size, old(w.room)))
      ensures (done, err) == Reported(bufs, 0, 0, 0, count, size, old(w.room))
      ensures (err.WriterFailed? <==> done < Max(0, Min(count, size))) && (err.EndOfData? ==> done == size)
    {
      hide Contents, AllValid, Took, Batched, Reported, OnTrack, Stopped;
      var offset: nat := 0;
      done, err := 0, NoError;
      var i: nat := 0;
      var bs := bufs;
      ghost var want, room, out, all := Max(0, Min(count, size)), w.room, w.out, Contents(bs);
      NothingTaken(w, all);
      TrackBegins(bs, count, size, room);
      EmptyPrefix(bs);
      while i < |bs| && done < count
        invariant i <= |bs| && AllValid(bs[..i]) && 0 <= done <= want
        invariant done < count ==> |Contents(bs[..i])| + offset == done
        invariant Took(w, out, all, done, room) && err.NoError?
        invariant OnTrack(bs, i, offset, done, count, size, room)
      {
        ContentsAt(bs, i);
        ValidParts(bs, i + 1);
        var b := bs[i];
        var sz := b.write - b.read;
        if sz <= offset {
          TrackSkips(bs, i, offset, done, count, size, room);
          offset := offset - sz;
          i := i + 1;
          continue;
        }
        sz := sz - offset;
        var left := count - done;
        if sz < MIN_BATCH && left >= MIN_BATCH && size - done >= MIN_BATCH {
          TrackBatches(bs, i, offset, done, count, size, room);
          WriteBatch(w, done, out, room);
          done := done + MIN_BATCH;
          offset := MIN_BATCH - sz;
          if done == size {
            TookAll(w, out, all, done, want, room);
            err := EndOfData;
            StoppedMeans(bs, done, err, count, size, room, want);
            return;
          }
          i := i + 1;
          continue;
        }
        if sz >= left { sz := left; }
        TrackWrites(bs, i, offset, done, count, size, room, sz);
        var n := WriteSlice(w, i, offset, sz, done, out, room);
        if n < sz {
          TookAll(w, out, all, done + sz, want, room);
          done, err := done + n, WriterFailed;
          StoppedMeans(bs, done, err, count, size, room, want);
          return;
        }
        done := done + n;
        offset := 0;
        i := i + 1;
      }
      TrackEnds(bs, i, offset, done, count, size, room);
      ContentsSplit(bs, i);
      TookAll(w, out, all, done, want, room);
      StoppedMeans(bs, done, err, count, size, room, want);
    }

    /** Write bytes of one buffer. */
    method WriteSlice(w: Writer, i: nat, offset: nat, sz: nat, done: nat, ghost out: Bytes, ghost room: nat)
      returns (n: nat)
      requires Valid() && Took(w, out, Data(), done, room) && i < |bufs| && bufs[i].Valid() && AllValid(bufs[..i])
      requires offset + sz <= bufs[i].write - bufs[i].read && |Contents(bufs[..i])| + offset == done
      modifies w
      ensures n == Min(sz, Max(0, room - done)) && Took(w, out, Data(), done + sz, room)
    {
      hide Contents, AllValid, Took;
      ContentsAt(bufs, i);
      SliceAt(bufs, i, offset, sz);
      n := WritePart(w, bufs[i].ReadSlice()[offset..offset + sz], done, out, Data(), room);
    }

    /** Write bytes that stand at some place in all. */
    method WritePart(w: Writer, bytes: Bytes, at: nat, ghost out: Bytes, ghost all: Bytes, ghost room: nat)
      returns (n: nat)
      requires Took(w, out, all, at, room) && at + |bytes| <= |all| && bytes == all[at..at + |bytes|]
      modifies w
      ensures n == Min(|bytes|, Max(0, room - at)) && Took(w, out, all, at + |bytes|, room)
    {
      Delivered(all, out, at, |bytes|, room);
      n := w.Write(bytes);
    }

    /** Collect a batch from an offset and write it, whatever the writer takes. */
    method WriteBatch(w: Writer, at: nat, ghost out: Bytes, ghost room: nat)
      requires Valid() && at + MIN_BATCH <= size && Took(w, out, Data(), at, room)
      modifies w
      ensures Took(w, out, Data(), at + MIN_BATCH, room)
    {
      hide Contents;
      var tmp := new u8[MIN_BATCH];
      var n, eof := ReadAt(tmp, at);
      var ignored := WritePart(w, tmp[..n], at, out, Data(), room);
    }
  }

  /** The writer started with out and room, and was given the first done bytes of all. */
  ghost predicate Took(w: Writer, out: Bytes, all: Bytes, done: nat, room: nat)
    reads w
  {
    done <= |all| && w.out == out + all[..Min(done, room)] && w.room == Max(0, room - done)
  }

  lemma NothingTaken(w: Writer, all: Bytes)
    ensures Took(w, w.out, all, 0, w.room)
  {
    assert all[..0] == [];
  }

  /** Once enough was given, or the writer is full, it has all it can take. */
  lemma TookAll(w: Writer, out: Bytes, all: Bytes, done: nat, want: nat, room: nat)
    requires Took(w, out, all, done, room) && done <= want <= |all| && (done == want || room < done)
    ensures w.out == out + all[..Min(want, room)]
  {
  }

  /** Where the bytes of a buffer are. */
  lemma ContentsAt(bufs: seq<Buffer>, i: nat)
    requires AllValid(bufs) && i < |bufs|
    ensures bufs[i].Valid() && |bufs[i].ReadSlice()| == bufs[i].write - bufs[i].read
    ensures |Contents(bufs[..i + 1])| == |Contents(bufs[..i])| + |bufs[i].ReadSlice()| <= |Contents(bufs)|
  {
    hide Contents;
    ContentsNext(bufs, i);
  }

  lemma SliceAt(bufs: seq<Buffer>, i: nat, j: nat, n: nat)
    requires AllValid(bufs) && i < |bufs| && j + n <= |bufs[i].ReadSlice()|
    ensures var a := |Contents(bufs[..i])|;
            a + j + n <= |Contents(bufs)| && bufs[i].ReadSlice()[j..j + n] == Contents(bufs)[a + j..a + j + n]
  {
    hide Contents;
    ContentsNext(bufs, i);
    Inside(Contents(bufs[..i]), bufs[i].ReadSlice(), Contents(bufs[i + 1..]), j, n);
  }

  lemma SliceIs(s: Bytes, all: Bytes, offset: nat)
    requires forall j :: 0 <= j < |s| ==> offset + j < |all| && s[j] == all[offset + j]
    ensures Min(offset, |all|) + |s| <= |all| && s == all[Min(offset, |all|)..Min(offset, |all|) + |s|]
  {
    if s != [] {
      var n := |s| - 1;
      assert s[n] == all[offset + n];
    }
  }

  lemma Inside(a: Bytes, b: Bytes, c: Bytes, offset: nat, n: nat)
    requires offset + n <= |b|
    ensures (a + b + c)[|a| + offset..|a| + offset + n] == b[offset..offset + n]
  {
  }

  /** Read from an offset of the bytes of some buffers. */
  method ReadBuffers(bs: seq<Buffer>, p: array<u8>, offset: nat) returns (done: nat)
    requires AllValid(bs)
    modifies p
    ensures done == Max(0, Min(p.Length, |Contents(bs)| - offset))
    ensures forall j :: 0 <= j < done ==> offset + j < |Contents(bs)| && p[j] == Contents(bs)[offset + j]
    ensures forall j :: done <= j < p.Length ==> p[j] == old(p[j])
  {
    hide Contents, AllValid;
    var skipped: nat := 0;
    done := 0;
    var i: nat := 0;
    ghost var all, pos: nat := Contents(bs), 0;
    EmptyPrefix(bs);
    while i < |bs| && done < p.Length
      invariant i <= |bs| && AllValid(bs[..i]) && pos == |Contents(bs[..i])| <= |all|
      invariant skipped == Min(pos, offset) && done == Max(0, Min(p.Length, pos - offset))
      invariant forall j :: 0 <= j < done ==> offset + j < |all| && p[j] == all[offset + j]
      invariant forall j :: done <= j < p.Length ==> p[j] == old(p[j])
    {
      ContentsAt(bs, i);
      ValidParts(bs, i + 1);
      var b := bs[i];
      var needToSkip := offset - skipped;
      var sz := b.write - b.read;
      if sz <= needToSkip {
        skipped := skipped + sz;
      } else {
        var n := Min(p.Length - done, sz - needToSkip);
        SliceAt(bs, i, needToSkip, n);
        CopyPart(p, done, b.ReadSlice()[needToSkip..needToSkip + n], all, offset + done);
        skipped, done := skipped + needToSkip, done + n;
      }
      i, pos := i + 1, pos + sz;
    }
    ContentsSplit(bs, i);
  }

  /** P gets the bytes that all has at some place. */
  method CopyPart(p: array<u8>, at: nat, bytes: Bytes, ghost all: Bytes, ghost from: nat)
    requires at + |bytes| <= p.Length && from + |bytes| <= |all| && bytes == all[from..from + |bytes|]
    modifies p
    ensures forall j :: at <= j < at + |bytes| ==> p[j] == all[from - at + j]
    ensures forall j :: 0 <= j < at || at + |bytes| <= j < p.Length ==> p[j] == old(p[j])
  {
    forall j | 0 <= j < |bytes| { p[at + j] := bytes[j]; }
  }

  lemma EmptyPrefix(bufs: seq<Buffer>)
    ensures AllValid(bufs[..0]) && Contents(bufs[..0]) == []
  {
  }

  lemma NoBytes(bufs: seq<Buffer>)
    ensures bufs == [] ==> Contents(bufs) == []
  {
  }

  /** What a writer has taken grows with what it is given. */
  lemma Delivered(data: Bytes, out: Bytes, done: nat, n: nat, room: nat)
    requires done + n <= |data|
    ensures var took := Min(n, Max(0, room - done));
            out + data[..Min(done, room)] + data[done..done + n][..took] == out + data[..Min(done + n, room)]
  {
    var took := Min(n, Max(0, room - done));
    if room >= done {
      assert data[..done] + data[done..done + n][..took] == data[..done + took];
    }
  }
}

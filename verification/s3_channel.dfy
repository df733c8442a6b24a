/**
  A read-only seekable channel over one object of a remote object store. The channel keeps a
  single window of at most BUFFER_SIZE bytes: a read serves bytes from the window and refills it
  with one ranged fetch when it is used up.

  The store is an oracle over the object's bytes: its length answers the size lookup made when the
  channel opens, and GetObjectRange answers a ranged fetch. The stream of a fetch reaches the
  channel as a sequence of chunks, one per call to the stream's read; how the network splits the
  range into chunks is not under the channel's control and is a parameter of Read and Rebuffer.
*/
module S3Channel {
  import opened Wrappers

  type byte = bv8

  /** The size of the window: 1 << 12. */
  const BUFFER_SIZE: int := 4096

  datatype Error = RangeNotSatisfiable | UnsupportedOperation

  // ---------------------------------------------------------------------------
  // The store and the stream of a fetch
  // ---------------------------------------------------------------------------

  /** The store's answer to a fetch of the inclusive byte range [first, last]: a last byte past the
      end of the object is clipped to the end, and a first byte outside the object, or a last
      byte before the first, is refused. */
  function GetObjectRange(content: seq<byte>, first: int, last: int): (r: Option<seq<byte>>)
    ensures r.Some? <==> 0 <= first < |content| && first <= last
    ensures r.Some? ==>
      0 < |r.value| <= last - first + 1 &&
      first + |r.value| <= |content| && r.value == content[first..first + |r.value|] &&
      (|r.value| == last - first + 1 || first + |r.value| == |content|)
  {
    if 0 <= first < |content| && first <= last then
      Some(content[first..Min(last + 1, |content|)])
    else
      None
  }

  /** The range a refill asks for: inclusive, starting at `position`, and ending at `size` or
      BUFFER_SIZE - 1 bytes further, whichever comes first. It is inverted, its last byte before
      its first, exactly when the position lies past the size. */
  function RangeRequest(position: int, size: int): (r: (int, int))
    ensures r.0 == position
    ensures r.1 <= size && r.1 - r.0 <= BUFFER_SIZE - 1
    ensures r.1 == size || r.1 - r.0 == BUFFER_SIZE - 1
    ensures r.1 < r.0 <==> size < position
  {
    (position, Min(size, position + BUFFER_SIZE - 1))
  }

  /** Every chunk fits the window, as each is the result of one read into it. */
  predicate ChunksFit(chunks: seq<seq<byte>>)
  {
    forall i :: 0 <= i < |chunks| ==> |chunks[i]| <= BUFFER_SIZE
  }

  /** The bytes the chunks carry, in order. */
  function Flatten(chunks: seq<seq<byte>>): (bytes: seq<byte>)
  {
    if chunks == [] then [] else Flatten(chunks[..|chunks| - 1]) + chunks[|chunks| - 1]
  }

  /** The window after each chunk in turn was read into its start. */
  function Overwrite(buf: seq<byte>, chunks: seq<seq<byte>>): (r: seq<byte>)
    requires |buf| == BUFFER_SIZE && ChunksFit(chunks)
    ensures |r| == BUFFER_SIZE
    ensures chunks != [] ==> r[..|chunks[|chunks| - 1]|] == chunks[|chunks| - 1]
  {
    if chunks == [] then buf
    else
      var c := chunks[|chunks| - 1];
      c + Overwrite(buf, chunks[..|chunks| - 1])[|c|..]
  }

  /** `d` with `piece` written over it from `at` on. */
  function Splice(d: seq<byte>, at: int, piece: seq<byte>): (r: seq<byte>)
    requires 0 <= at && at + |piece| <= |d|
    ensures |r| == |d| && r[at..at + |piece|] == piece
    ensures forall k :: 0 <= k < |d| && !(at <= k < at + |piece|) ==> r[k] == d[k]
  {
    d[..at] + piece + d[at + |piece|..]
  }

  lemma SpliceEmpty(d: seq<byte>, at: int)
    requires 0 <= at <= |d|
    ensures Splice(d, at, []) == d
  {
    assert d[..at] + d[at..] == d;
  }

  /** The destination's bulk put: `len` bytes of `src` from `offset` land in `dst` at `at`. */
  method Put(dst: array<byte>, at: int, src: array<byte>, offset: int, len: int)
    requires dst != src
    requires 0 <= at && 0 <= len && at + len <= dst.Length
    requires 0 <= offset && offset + len <= src.Length
    modifies dst
    ensures dst[..] == Splice(old(dst[..]), at, src[offset..offset + len])
  {
    forall k | 0 <= k < len {
      dst[at + k] := src[offset + k];
    }
  }

  /** The bytes of `window` are those of `content` from `pos` on. */
  predicate WindowHolds(window: seq<byte>, content: seq<byte>, pos: int)
  {
    window == [] || (0 <= pos && pos + |window| <= |content| && window == content[pos..pos + |window|])
  }

  /** Serving the first `n` bytes of a window buf[p0..limit] that holds the content from `pos`
      serves the content's bytes, and leaves a window that holds the content from `pos + n`. */
  lemma WindowAdvance(buf: seq<byte>, p0: int, n: int, limit: int, content: seq<byte>, pos: int)
    requires 0 <= p0 && 0 <= n && p0 + n <= limit <= |buf|
    requires WindowHolds(buf[p0..limit], content, pos)
    ensures WindowHolds(buf[p0 + n..limit], content, pos + n)
    ensures n > 0 ==> 0 <= pos && pos + n <= |content| && buf[p0..p0 + n] == content[pos..pos + n]
  {
    if p0 < limit {
      assert buf[p0..p0 + n] == buf[p0..limit][..n];
      assert buf[p0 + n..limit] == buf[p0..limit][n..];
    }
  }

  /** What the store answers to the range a refill at `position` asks for: the object's bytes
      from `position`, a whole window's worth or up to the end, or a refusal outside the object. */
  function FetchAt(content: seq<byte>, position: int): (r: Option<seq<byte>>)
    ensures r.Some? <==> 0 <= position < |content|
    ensures r.Some? ==>
      0 < |r.value| <= BUFFER_SIZE && position + |r.value| <= |content| &&
      r.value == content[position..position + |r.value|] &&
      (|r.value| == BUFFER_SIZE || position + |r.value| == |content|)
  {
    var range := RangeRequest(position, |content|);
    GetObjectRange(content, range.0, range.1)
  }

  // ---------------------------------------------------------------------------
  // A read, on values
  // ---------------------------------------------------------------------------

  /** The part of a channel's state that a read consults and changes: the buffer's bytes, the
      window buf[pointer..limit] of bytes not yet served, and the position in the object. */
  datatype Cursor = Cursor(buf: seq<byte>, pointer: int, limit: int, position: int)
  {
    predicate Valid()
    {
      |buf| == BUFFER_SIZE && 0 <= pointer <= limit <= BUFFER_SIZE
    }

    /** The unserved part of the window holds the object's bytes from `position` on. */
    predicate Holds(content: seq<byte>)
      requires Valid()
    {
      WindowHolds(buf[pointer..limit], content, position)
    }
  }

  /** What a read leaves behind: the cursor, the destination's bytes, and the answer. */
  datatype Outcome = Outcome(cursor: Cursor, dst: seq<byte>, result: Result<int, Error>)

  /** The fetch's stream delivers the bytes the store answers with, in order, though it may end
      before all of them have arrived (at worst with none). */
  predicate Delivers(content: seq<byte>, position: int, chunks: seq<seq<byte>>)
  {
    ChunksFit(chunks) &&
    (FetchAt(content, position).Some? ==> Flatten(chunks) <= FetchAt(content, position).value)
  }

  /** The fetch's stream delivers every byte the store answers with. */
  predicate DeliversAll(content: seq<byte>, position: int, chunks: seq<seq<byte>>)
  {
    Delivers(content, position, chunks) &&
    (FetchAt(content, position).Some? ==> Flatten(chunks) == FetchAt(content, position).value)
  }

  /** A refill: each chunk of the stream is read into the start of the buffer, the window starts
      at 0 and ends at the number of bytes the chunks carry; a refused fetch gives nothing. A
      stream that delivers the whole range fills a non-empty window, a whole one unless it
      reaches the end of the object. */
  function Refill(c: Cursor, content: seq<byte>, chunks: seq<seq<byte>>): (r: Option<Cursor>)
    requires c.Valid() && Delivers(content, c.position, chunks)
    ensures r.Some? <==> 0 <= c.position < |content|
    ensures r.Some? ==>
      r.value.Valid() && r.value.pointer == 0 && r.value.position == c.position &&
      r.value.limit == |Flatten(chunks)| <= |FetchAt(content, c.position).value|
    ensures r.Some? && DeliversAll(content, c.position, chunks) ==>
      0 < r.value.limit &&
      (c.position + r.value.limit == |content| || r.value.limit == BUFFER_SIZE)
  {
    if FetchAt(content, c.position).None? then None
    else Some(Cursor(Overwrite(c.buf, chunks), 0, |Flatten(chunks)|, c.position))
  }

  /** The copy loop of a read: as many unserved bytes as `d` has room for from `at` land there,
      and the window and the position move past them. */
  function Serve(c: Cursor, d: seq<byte>, at: int): (o: Outcome)
    requires c.Valid() && 0 <= at <= |d|
    ensures o.cursor.Valid() && o.result.Ok?
  {
    var n := Min(c.limit - c.pointer, |d| - at);
    Outcome(c.(pointer := c.pointer + n, position := c.position + n),
            Splice(d, at, c.buf[c.pointer..c.pointer + n]), Ok(n))
  }

  /** One read into d[at..]: -1 at the end of the object; otherwise an empty window is refilled
      (a refused refill is an error and changes nothing) and the window is served. */
  function ReadStep(c: Cursor, content: seq<byte>, d: seq<byte>, at: int, chunks: seq<seq<byte>>): (o: Outcome)
    requires c.Valid() && 0 <= at <= |d| && Delivers(content, c.position, chunks)
    ensures o.cursor.Valid() && |o.dst| == |d|
  {
    if c.position == |content| then Outcome(c, d, Ok(-1))
    else if c.limit == c.pointer then
      match Refill(c, content, chunks)
      case None => Outcome(c, d, Err(RangeNotSatisfiable))
      case Some(full) => Serve(full, d, at)
    else Serve(c, d, at)
  }

  // ---------------------------------------------------------------------------
  // What a read promises
  // ---------------------------------------------------------------------------

  /** -1 answers exactly a read at the end of the object, and such a read changes nothing. */
  lemma ReadEndOfData(c: Cursor, content: seq<byte>, d: seq<byte>, at: int, chunks: seq<seq<byte>>)
    requires c.Valid() && 0 <= at <= |d| && Delivers(content, c.position, chunks)
    ensures var o := ReadStep(c, content, d, at, chunks);
      (o.result == Ok(-1) <==> c.position == |content|) &&
      (o.result == Ok(-1) ==> o.cursor == c && o.dst == d)
  {
  }

  /** A read fails exactly when it must refill and the store refuses the range: the position is
      outside the object. A failed read changes nothing. */
  lemma ReadRefused(c: Cursor, content: seq<byte>, d: seq<byte>, at: int, chunks: seq<seq<byte>>)
    requires c.Valid() && 0 <= at <= |d| && Delivers(content, c.position, chunks)
    ensures var o := ReadStep(c, content, d, at, chunks);
      (o.result.Err? <==> c.limit == c.pointer && !(0 <= c.position <= |content|)) &&
      (o.result.Err? ==> o.result.error == RangeNotSatisfiable && o.cursor == c && o.dst == d)
  {
  }

  /** Serving copies n bytes, as many as both the window and the room in `d` allow, from the
      window's pointer into d[at..at + n], changes `d` nowhere else, and moves the pointer and
      the position by n. */
  lemma ServeKeeps(c: Cursor, d: seq<byte>, at: int)
    requires c.Valid() && 0 <= at <= |d|
    ensures var o := Serve(c, d, at); var n := o.result.value;
      n == Min(c.limit - c.pointer, |d| - at) &&
      0 <= n <= |d| - at && (at < |d| && c.limit != c.pointer ==> n > 0) &&
      o.dst[at..at + n] == c.buf[c.pointer..c.pointer + n] &&
      o.dst[..at] == d[..at] && o.dst[at + n..] == d[at + n..] &&
      o.cursor.buf == c.buf && o.cursor.limit == c.limit &&
      o.cursor.pointer == c.pointer + n && o.cursor.position == c.position + n
  {
    var o := Serve(c, d, at);
    var piece := c.buf[c.pointer..c.pointer + o.result.value];
    assert o.dst == d[..at] + piece + d[at + |piece|..];
  }

  /** Serving a window that holds the object's bytes delivers the object's bytes from the
      position on, and leaves a window that still holds them. */
  lemma ServeCoherent(c: Cursor, content: seq<byte>, d: seq<byte>, at: int)
    requires c.Valid() && 0 <= at <= |d| && c.Holds(content)
    ensures var o := Serve(c, d, at); var n := o.result.value;
      o.cursor.Holds(content) &&
      (n > 0 ==> 0 <= c.position && c.position + n <= |content| &&
                 o.dst[at..at + n] == content[c.position..c.position + n])
  {
    var n := Serve(c, d, at).result.value;
    WindowAdvance(c.buf, c.pointer, n, c.limit, content, c.position);
  }

  /** A read that is neither at the end nor refused serves the window it finds, or the refilled
      one when it finds the window empty: n bytes, as many as both the window and the room in
      dst allow, copied from the window's pointer into d[at..at + n] and nowhere else; the
      pointer and the position move by n. With room in dst, n is positive unless an empty window
      was refilled from a stream that ended early. */
  lemma ReadServes(c: Cursor, content: seq<byte>, d: seq<byte>, at: int, chunks: seq<seq<byte>>)
    requires c.Valid() && 0 <= at <= |d| && Delivers(content, c.position, chunks)
    requires c.position != |content|
    ensures var o := ReadStep(c, content, d, at, chunks);
      o.result.Ok? ==>
        var w := if c.limit != c.pointer then c else Refill(c, content, chunks).value;
        var n := o.result.value;
        n == Min(w.limit - w.pointer, |d| - at) &&
        0 <= n <= |d| - at &&
        (at < |d| && (c.limit != c.pointer || DeliversAll(content, c.position, chunks)) ==> n > 0) &&
        o.dst[at..at + n] == w.buf[w.pointer..w.pointer + n] &&
        o.dst[..at] == d[..at] && o.dst[at + n..] == d[at + n..] &&
        o.cursor.buf == w.buf && o.cursor.limit == w.limit &&
        o.cursor.pointer == w.pointer + n && o.cursor.position == c.position + n
  {
    if c.limit != c.pointer {
      ServeKeeps(c, d, at);
    } else if 0 <= c.position < |content| {
      ServeKeeps(Refill(c, content, chunks).value, d, at);
    }
  }

  /** A read that finds the window empty and whose refill stream delivers nothing answers 0: the
      window stays empty, and the position and dst are unchanged. */
  lemma ReadEmptyRefill(c: Cursor, content: seq<byte>, d: seq<byte>, at: int)
    requires c.Valid() && 0 <= at <= |d| && c.limit == c.pointer
    requires 0 <= c.position < |content|
    ensures Delivers(content, c.position, [])
    ensures var o := ReadStep(c, content, d, at, []);
      o.result == Ok(0) && o.dst == d &&
      o.cursor.pointer == o.cursor.limit == 0 && o.cursor.position == c.position
  {
    var o := ReadStep(c, content, d, at, []);
    assert o.dst == d[..at] + [] + d[at..];
  }

  /** A refill that arrives as one chunk, whole or cut short, leaves a window holding the
      object's bytes. */
  lemma RefillHolds(c: Cursor, content: seq<byte>, chunks: seq<seq<byte>>)
    requires c.Valid() && Delivers(content, c.position, chunks) && 0 <= c.position < |content|
    requires |chunks| <= 1
    ensures Refill(c, content, chunks).value.Holds(content)
  {
    var full := Refill(c, content, chunks).value;
    if |chunks| == 1 {
      var fetched := FetchAt(content, c.position).value;
      assert Flatten(chunks) == Flatten([]) + chunks[0];
      assert full.buf[0..full.limit] == chunks[0] == fetched[..full.limit];
      assert fetched[..full.limit] == content[c.position..c.position + full.limit];
    }
  }

  /** While the window holds the object's bytes, a read delivers the object's bytes from the
      position on and keeps the window holding them; a refill must arrive as one chunk for this. */
  lemma ReadCoherent(c: Cursor, content: seq<byte>, d: seq<byte>, at: int, chunks: seq<seq<byte>>)
    requires c.Valid() && 0 <= at <= |d| && Delivers(content, c.position, chunks)
    requires c.Holds(content) && (c.limit == c.pointer ==> |chunks| <= 1)
    ensures var o := ReadStep(c, content, d, at, chunks);
      o.cursor.Holds(content) &&
      (o.result.Ok? && o.result.value > 0 ==>
         var n := o.result.value;
         0 <= c.position && c.position + n <= |content| &&
         o.dst[at..at + n] == content[c.position..c.position + n])
  {
    if c.position == |content| {
    } else if c.limit != c.pointer {
      ServeCoherent(c, content, d, at);
    } else if 0 <= c.position < |content| {
      RefillHolds(c, content, chunks);
      ServeCoherent(Refill(c, content, chunks).value, content, d, at);
    }
  }

  /** Reading from a position inside the object, while the window holds the object's bytes and
      each refill delivers the whole range in one chunk, never fails: it answers -1 exactly at the end, and
      otherwise delivers the next bytes of the object to the start of dst and keeps the window
      holding the object's bytes. */
  lemma ReadAdvances(c: Cursor, content: seq<byte>, d: seq<byte>, chunks: seq<seq<byte>>)
    requires c.Valid() && c.Holds(content) && 0 <= c.position <= |content| && |d| > 0
    requires chunks == if FetchAt(content, c.position).Some? then [FetchAt(content, c.position).value] else []
    ensures DeliversAll(content, c.position, chunks)
    ensures var o := ReadStep(c, content, d, 0, chunks);
      o.cursor.Holds(content) && o.result.Ok? &&
      (o.result.value == -1 <==> c.position == |content|) &&
      (o.result.value != -1 ==>
         var n := o.result.value;
         0 < n && o.cursor.position == c.position + n <= |content| &&
         o.dst[..n] == content[c.position..c.position + n])
  {
    assert DeliversAll(content, c.position, chunks) by {
      if chunks != [] {
        assert Flatten(chunks) == Flatten([]) + chunks[0];
      }
    }
    ReadEndOfData(c, content, d, 0, chunks);
    ReadRefused(c, content, d, 0, chunks);
    ReadCoherent(c, content, d, 0, chunks);
    if c.position != |content| {
      ReadServes(c, content, d, 0, chunks);
    }
  }

  /** A refill that arrives in several chunks overwrites the start of the window chunk by chunk,
      so the window can hold bytes that are not the object's. */
  lemma SplitRefillBreaksWindow()
    ensures var c := Cursor(seq(BUFFER_SIZE, _ => 0), 0, 0, 0);
      var chunks := [[1], [2]];
      DeliversAll([1, 2], 0, chunks) &&
      Refill(c, [1, 2], chunks).Some? && !Refill(c, [1, 2], chunks).value.Holds([1, 2])
  {
    var zeroed: seq<byte> := seq(BUFFER_SIZE, _ => 0);
    var chunks: seq<seq<byte>> := [[1], [2]];
    assert chunks[..1] == [[1]];
    assert Flatten(chunks) == Flatten([[1]]) + [2];
    assert Flatten([[1]]) == Flatten([]) + [1];
    assert Overwrite(zeroed, chunks) == [2] + Overwrite(zeroed, [[1]])[1..];
    assert Overwrite(zeroed, [[1]])[1] == zeroed[1] == 0;
    assert Overwrite(zeroed, chunks)[0..2] != [1, 2];
  }

  // ---------------------------------------------------------------------------
  // The channel
  // ---------------------------------------------------------------------------

  class SeekableByteChannel {
    /** The window: buffer[bufferPointer..bufferLimit] holds the bytes not yet served. */
    const buffer: array<byte>
    var bufferPointer: int
    var bufferLimit: int
    /** The offset in the object of the next byte a read serves. */
    var position: int
    /** The object's length, looked up once when the channel opens. */
    const size: int
    var closed: bool
    /** The object as the store holds it. */
    const content: seq<byte>

    ghost predicate Valid()
      reads this
    {
      buffer.Length == BUFFER_SIZE &&
      0 <= bufferPointer <= bufferLimit <= BUFFER_SIZE &&
      size == |content|
    }

    /** The channel's read state as a value. */
    ghost function State(): (c: Cursor)
      requires Valid()
      reads this, buffer
      ensures c.Valid()
    {
      Cursor(buffer[..], bufferPointer, bufferLimit, position)
    }

    /** Opens the channel: the size comes from the store, the window starts empty and zeroed. */
    constructor(content: seq<byte>)
      ensures Valid() && State().Holds(content)
      ensures this.content == content && size == |content|
      ensures position == 0 && bufferPointer == 0 && bufferLimit == 0 && !closed
      ensures fresh(buffer) && forall i :: 0 <= i < buffer.Length ==> buffer[i] == 0
    {
      this.content := content;
      size := |content|;
      buffer := new byte[BUFFER_SIZE](_ => 0);
      bufferPointer := 0;
      bufferLimit := 0;
      position := 0;
      closed := false;
    }

    /** The bytes of the window not yet served. */
    function Remaining(): (r: int)
      requires Valid()
      reads this
      ensures 0 <= r <= BUFFER_SIZE
      ensures r == 0 <==> bufferPointer == bufferLimit
    {
      bufferLimit - bufferPointer
    }

    /** Refills the window with one ranged fetch, draining the stream chunk by chunk: each chunk
        is read into the start of the buffer while the byte count sums every chunk. */
    method Rebuffer(chunks: seq<seq<byte>>) returns (ok: bool)
      requires Valid() && Delivers(content, position, chunks)
      modifies this, buffer
      ensures Valid() && closed == old(closed)
      ensures ok == Refill(old(State()), content, chunks).Some?
      ensures ok ==> State() == Refill(old(State()), content, chunks).value
      ensures !ok ==> unchanged(this, buffer)
    {
      var response := FetchAt(content, position);
      if response.None? {
        return false;
      }
      var bytesRead := 0;
      var i := 0;
      while i < |chunks|
        invariant 0 <= i <= |chunks|
        invariant ChunksFit(chunks[..i])
        invariant bytesRead == |Flatten(chunks[..i])|
        invariant buffer[..] == Overwrite(old(buffer[..]), chunks[..i])
        modifies buffer
      {
        var n := |chunks[i]|;
        forall k | 0 <= k < n {
          buffer[k] := chunks[i][k];
        }
        assert chunks[..i + 1][..i] == chunks[..i];
        assert buffer[..] == chunks[i] + Overwrite(old(buffer[..]), chunks[..i])[n..];
        bytesRead := bytesRead + n;
        i := i + 1;
      }
      assert chunks[..|chunks|] == chunks;
      bufferPointer := 0;
      bufferLimit := bytesRead;
      return true;
    }

    /** Reads into dst[dstPosition..]: -1 at the end of the object; otherwise refills an empty
        window and copies as much of the window as dst has room for. */
    method Read(dst: array<byte>, dstPosition: nat, chunks: seq<seq<byte>>) returns (r: Result<int, Error>)
      requires Valid() && dst != buffer && dstPosition <= dst.Length
      requires Delivers(content, position, chunks)
      modifies this, buffer, dst
      ensures Valid() && closed == old(closed)
      ensures var o := ReadStep(old(State()), content, old(dst[..]), dstPosition, chunks);
        State() == o.cursor && dst[..] == o.dst && r == o.result
    {
      if position == size {
        r := Ok(-1);
      } else {
        var ok := true;
        if Remaining() == 0 {
          ok := Rebuffer(chunks);
        }
        if !ok {
          r := Err(RangeNotSatisfiable);
        } else {
          var n := CopyWindow(dst, dstPosition);
          r := Ok(n);
        }
      }
    }

    /** The copy loop of a read: serves the window into dst[dstPosition..] and advances the
        window and the position alike. */
    method CopyWindow(dst: array<byte>, dstPosition: nat) returns (n: int)
      requires Valid() && dst != buffer && dstPosition <= dst.Length
      modifies this, dst
      ensures Valid() && closed == old(closed)
      ensures var o := Serve(old(State()), old(dst[..]), dstPosition);
        State() == o.cursor && dst[..] == o.dst && Ok(n) == o.result
    {
      ghost var c0, dst0 := State(), dst[..];
      // The pointer and the position move in locals and are stored back once the loop ends.
      var pointer, pos := bufferPointer, position;
      var initialPosition := dstPosition;
      var dstPos := dstPosition;
      // The increments below are the distance moved since the first pass, not this pass's length;
      // the loop still runs at most once, as one pass empties the window or fills dst.
      while bufferLimit - pointer > 0 && dst.Length - dstPos > 0
        invariant buffer[..] == c0.buf
        invariant initialPosition <= dstPos <= dst.Length == |dst0|
        invariant pointer == c0.pointer + (dstPos - initialPosition) <= c0.limit
        invariant pos == c0.position + (dstPos - initialPosition)
        invariant dstPos == initialPosition || pointer == c0.limit || dstPos == dst.Length
        invariant dstPos == initialPosition ==> dst[..] == dst0
        invariant dstPos != initialPosition ==>
          dst[..] == Splice(dst0, initialPosition, c0.buf[c0.pointer..pointer])
        modifies dst
        decreases bufferLimit - pointer
      {
        assert dstPos == initialPosition;
        var len := Min(bufferLimit - pointer, dst.Length - dstPos);
        Put(dst, dstPos, buffer, pointer, len);
        dstPos := dstPos + len;
        pointer := pointer + (dstPos - initialPosition);
        pos := pos + (dstPos - initialPosition);
      }
      n := dstPos - initialPosition;
      ghost var o := Serve(c0, dst0, dstPosition);
      assert n == o.result.value;
      if n == 0 {
        SpliceEmpty(dst0, dstPosition);
      }
      bufferPointer, position := pointer, pos;
      assert State() == o.cursor;
    }

    function Position(): (r: int)
      reads this
    {
      position
    }

    /** Moves the position and nothing else: no range check, and the window is kept. */
    method SetPosition(newPosition: int) returns (ch: SeekableByteChannel)
      requires Valid()
      modifies this
      ensures Valid() && ch == this && closed == old(closed)
      ensures State() == old(State()).(position := newPosition)
    {
      position := newPosition;
      ch := this;
    }

    /** The size looked up when the channel opened. */
    function Size(): (r: int)
      requires Valid()
      reads this
      ensures r == |content|
    {
      size
    }

    /** Writing is not supported, yet reported as writing nothing rather than as an error. */
    method Write(src: seq<byte>) returns (n: int)
      ensures n == 0
    {
      n := 0;
    }

    /** Truncation is not supported. */
    method Truncate(newSize: int) returns (r: Result<SeekableByteChannel, Error>)
      ensures r == Err(UnsupportedOperation)
    {
      r := Err(UnsupportedOperation);
    }

    predicate IsOpen()
      reads this
    {
      !closed
    }

    method Close()
      modifies this
      ensures closed && !IsOpen()
      ensures position == old(position) && bufferPointer == old(bufferPointer)
      ensures bufferLimit == old(bufferLimit)
    {
      closed := true;
    }
  }

  // ---------------------------------------------------------------------------
  // Callers
  // ---------------------------------------------------------------------------

  /** One read into the start of dst, from a store whose stream delivers the fetched range whole
      and in one chunk: from a position inside the object it never fails, answers -1 exactly at the end, and
      otherwise delivers the object's next bytes. */
  method ReadOnce(ch: SeekableByteChannel, dst: array<byte>) returns (n: int)
    requires ch.Valid() && ch.State().Holds(ch.content) && 0 <= ch.position <= ch.size
    requires dst != ch.buffer && dst.Length > 0
    modifies ch, ch.buffer, dst
    ensures ch.Valid() && ch.State().Holds(ch.content)
    ensures n == -1 <==> old(ch.position) == ch.size
    ensures n == -1 ==> ch.position == old(ch.position)
    ensures n != -1 ==>
      0 < n <= dst.Length && ch.position == old(ch.position) + n <= ch.size &&
      dst[..n] == ch.content[old(ch.position)..ch.position]
  {
    var response := FetchAt(ch.content, ch.position);
    var chunks := if response.Some? then [response.value] else [];
    ghost var before, d0 := ch.State(), dst[..];
    ReadAdvances(before, ch.content, d0, chunks);
    var r := ch.Read(dst, 0, chunks);
    n := if r.Ok? then r.value else -1;
  }

  /** Opens a channel and reads until the end-of-data signal, from a store whose stream delivers
      each fetched range whole and in one chunk (see ReadOnce): the bytes read are exactly the
      object's. */
  method ReadToEnd(content: seq<byte>, capacity: nat) returns (data: seq<byte>)
    requires capacity > 0
    ensures data == content
  {
    var ch := new SeekableByteChannel(content);
    var dst := new byte[capacity];
    data := [];
    while true
      invariant ch.Valid() && ch.State().Holds(content) && ch.content == content
      invariant fresh(ch) && fresh(ch.buffer) && dst != ch.buffer && dst.Length == capacity
      invariant 0 <= ch.position <= ch.size && data == content[..ch.position]
      decreases ch.size - ch.position
    {
      ghost var p0 := ch.position;
      var n := ReadOnce(ch, dst);
      if n == -1 {
        break;
      }
      assert content[..ch.position] == content[..p0] + dst[..n];
      data := data + dst[..n];
    }
    assert content[..ch.position] == content;
  }

  /** Seeking back keeps the window, so the next read serves the bytes after the old position
      rather than those at the new one. */
  method StaleReadAfterSeek() returns (first: byte, second: byte)
    ensures first == 10 && second == 20
  {
    var ch := new SeekableByteChannel([10, 20, 30]);
    var dst := new byte[1];
    var r := ch.Read(dst, 0, [[10, 20, 30]]);
    first := dst[0];
    var _ := ch.SetPosition(0);
    r := ch.Read(dst, 0, [[10, 20, 30]]);
    second := dst[0];
  }
}

/** Downloading a file without acknowledgements: one queued message that rewrites its own header
    chunk after chunk (AuthServerFileMessage with DOWNLOAD_NO_ACKS, over FileTransaction.cc). */
module FastDownload {
  import opened Wire
  import opened Writers

  const CHUNK_SIZE := 32768
  const HEADER_SIZE := 22
  const FILE_DOWNLOAD_CHUNK: U16 := 0x25

  function ChunkLen(size: nat, offset: nat): nat
    requires offset <= size
  {
    Min(CHUNK_SIZE, size - offset)
  }

  /** A file that is sent in chunks; an acknowledgement moves on to the next. */
  class Transaction {
    const file: Bytes
    var offset: nat
    var remaining: nat

    ghost predicate Valid()
      reads this
    {
      offset <= |file| && remaining == ChunkLen(|file|, offset) && offset + remaining <= |file|
    }

    constructor (file: Bytes)
      ensures Valid() && this.file == file && offset == 0
    {
      this.file := file;
      offset, remaining := 0, 0;
      new;
      ChunkAcked();
    }

    method ChunkAcked()
      requires offset + remaining <= |file|
      modifies this
      ensures Valid() && offset == old(offset + remaining)
    {
      offset := offset + remaining;
      if FileComplete() {
        remaining := 0;
        return;
      }
      remaining := CHUNK_SIZE;
      if |file| - offset < remaining {
        remaining := |file| - offset;
      }
    }

    predicate FileComplete()
      reads this
    {
      offset >= |file|
    }

    predicate InLastChunk()
      reads this
    {
      offset + remaining >= |file|
    }

    /** At most one piece, and what is left of start afterwards. */
    method FillIovecs(start: nat) returns (vecs: seq<Bytes>, start': nat)
      requires Valid() && start <= remaining
      ensures |vecs| <= 1 && Flat(vecs) == file[offset + start..offset + remaining] && start' == 0
    {
      if remaining > start {
        vecs, start' := [file[offset + start..offset + remaining]], 0;
        assert vecs[1..] == [];
      } else {
        vecs, start' := [], start - remaining;
      }
    }

    method IovecsWrittenBytes(count: nat, start: nat) returns (left: nat, done: bool)
      requires Valid() && start <= remaining
      ensures done <==> start + count >= remaining
      ensures left == if done then start + count - remaining else 0
    {
      var byteCt := count - (remaining - start);
      if byteCt >= 0 {
        left, done := byteCt, true;
      } else {
        left, done := 0, false;
      }
    }

    method FillBuffer(buf: array<Byte>, at: nat, len: nat, start: nat) returns (n: nat, start': nat, done: bool)
      requires Valid() && start <= remaining && at + len <= buf.Length
      modifies buf
      ensures n == Min(len, remaining - start) && start' == 0
      ensures Wrote(buf[..], old(buf[..]), at, file[offset + start..offset + start + n])
      ensures done <==> start + n == remaining
    {
      if start >= remaining {
        WroteNothing(buf[..], at);
        return 0, start - remaining, true;
      }
      n := Min(remaining - start, len);
      Put(buf, at, file[offset + start..offset + start + n]);
      done := n + start >= remaining;
      start' := 0;
    }
  }

  /** The header of the chunk at an offset. */
  function Header(reqid: U32, size: nat, offset: nat): (h: Bytes)
    requires offset <= size < 0x1_0000_0000
    ensures |h| == HEADER_SIZE
  {
    HeaderStart(reqid, size) + (Le32(offset) + Le32(ChunkLen(size, offset)))
  }

  function HeaderStart(reqid: U32, size: nat): (h: Bytes)
    requires size < 0x1_0000_0000
    ensures |h| == 14
  {
    Le16(FILE_DOWNLOAD_CHUNK) + (Le32(reqid) + (Le32(0) + Le32(size)))
  }

  /** The chunk at an offset as a message of its own. */
  function ChunkMessage(reqid: U32, file: Bytes, offset: nat): (b: Bytes)
    requires offset <= |file| < 0x1_0000_0000
    ensures |b| == HEADER_SIZE + ChunkLen(|file|, offset)
  {
    Header(reqid, |file|, offset) + file[offset..offset + ChunkLen(|file|, offset)]
  }

  /** All that is to be sent from the chunk at an offset on. */
  function Stream(reqid: U32, file: Bytes, offset: nat): Bytes
    requires offset <= |file| < 0x1_0000_0000
    decreases |file| - offset
  {
    var next := offset + ChunkLen(|file|, offset);
    ChunkMessage(reqid, file, offset) + if next >= |file| then [] else Stream(reqid, file, next)
  }

  // ---------- What the stream is ----------

  /** A client that believes the length in every header. */
  function Payloads(s: Bytes): Bytes
    decreases |s|
  {
    if |s| < HEADER_SIZE then []
    else
      var len := Read32(s, 18);
      if |s| < HEADER_SIZE + len then [] else s[HEADER_SIZE..HEADER_SIZE + len] + Payloads(s[HEADER_SIZE + len..])
  }

  lemma HeaderLen(reqid: U32, size: nat, offset: nat, rest: Bytes)
    requires offset <= size < 0x1_0000_0000
    ensures Read32(Header(reqid, size, offset) + rest, 14) == offset
    ensures Read32(Header(reqid, size, offset) + rest, 18) == ChunkLen(size, offset)
  {
    hide HeaderStart;
    var s := Header(reqid, size, offset) + rest;
    var n := ChunkLen(size, offset);
    assert s[14..18] == Le32(offset) + [] && s[18..22] == Le32(n) + [];
    Take32Le32(offset, []);
    Take32Le32(n, []);
    assert Read32(s, 14) == Read32(s[14..18], 0) && Read32(s, 18) == Read32(s[18..22], 0);
  }

  lemma StreamUnfolds(reqid: U32, file: Bytes, offset: nat)
    requires offset <= |file| < 0x1_0000_0000
    ensures
      var next := offset + ChunkLen(|file|, offset);
      var tail := if next >= |file| then [] else Stream(reqid, file, next);
      Stream(reqid, file, offset) == Header(reqid, |file|, offset) + (file[offset..next] + tail)
  {
    hide Header;
    var next := offset + ChunkLen(|file|, offset);
    Assoc(Header(reqid, |file|, offset), file[offset..next], if next >= |file| then [] else Stream(reqid, file, next));
  }

  lemma PayloadsStep(header: Bytes, chunk: Bytes, tail: Bytes)
    requires |header| == HEADER_SIZE && Read32(header + (chunk + tail), 18) == |chunk|
    ensures Payloads(header + (chunk + tail)) == chunk + Payloads(tail)
  {
    hide Read32;
    var s := header + (chunk + tail);
    SliceOfTail(header, chunk + tail, HEADER_SIZE, |s|);
    assert s[HEADER_SIZE..] == chunk + tail;
    assert s[HEADER_SIZE..HEADER_SIZE + |chunk|] == chunk && s[HEADER_SIZE + |chunk|..] == tail;
  }

  lemma NoPayloads()
    ensures Payloads([]) == []
  {
  }

  /** The stream carries the file, from any chunk on, and nothing else. */
  lemma {:induction false} StreamIsFile(reqid: U32, file: Bytes, offset: nat)
    requires offset <= |file| < 0x1_0000_0000
    ensures Payloads(Stream(reqid, file, offset)) == file[offset..]
    decreases |file| - offset
  {
    hide Header, Read32, Stream, Payloads;
    var n := ChunkLen(|file|, offset);
    var next := offset + n;
    var chunk := file[offset..next];
    var tail := if next >= |file| then [] else Stream(reqid, file, next);
    StreamUnfolds(reqid, file, offset);
    HeaderLen(reqid, |file|, offset, chunk + tail);
    PayloadsStep(Header(reqid, |file|, offset), chunk, tail);
    NoPayloads();
    if next < |file| {
      StreamIsFile(reqid, file, next);
    }
    assert file[offset..] == chunk + file[next..];
  }

  /** One header for every started 32768 bytes, and one for an empty file. */
  lemma {:induction false} StreamLength(reqid: U32, file: Bytes, k: nat)
    requires k * CHUNK_SIZE <= |file| < 0x1_0000_0000 && (k > 0 ==> k * CHUNK_SIZE < |file|)
    ensures |Stream(reqid, file, k * CHUNK_SIZE)|
            == |file| - k * CHUNK_SIZE
               + HEADER_SIZE * (if |file| == 0 then 1 else (|file| + CHUNK_SIZE - 1) / CHUNK_SIZE - k)
    decreases |file| - k * CHUNK_SIZE
  {
    hide ChunkMessage;
    if (k + 1) * CHUNK_SIZE < |file| {
      StreamLength(reqid, file, k + 1);
    }
  }

  // ---------- The message ----------

  /** The one message of a download.  Its position in the queue counts headers and all. */
  class FileMessage {
    const trans: Transaction
    const reqid: U32
    var header: Bytes
    var headerBytes: nat

    /** start is the queue's offset into the whole download: headers done with, chunks done with,
        and a position in the current chunk's message. */
    ghost predicate At(start: nat)
      reads this, trans
    {
      && |trans.file| < 0x1_0000_0000 && trans.Valid()
      && header == Header(reqid, |trans.file|, trans.offset)
      && (|trans.file| > 0 ==> trans.offset < |trans.file|)
      && SoFar() <= start <= SoFar() + HEADER_SIZE + trans.remaining
    }

    /** Between calls the message is never at the end of a chunk that is not the last. */
    ghost predicate Valid(start: nat)
      reads this, trans
    {
      At(start) && (!trans.InLastChunk() ==> start < SoFar() + HEADER_SIZE + trans.remaining)
    }

    function SoFar(): nat
      reads this, trans
    {
      headerBytes + trans.offset
    }

    /** What is still to be written. */
    ghost function Pending(start: nat): Bytes
      requires At(start)
      reads this, trans
    {
      StreamLongEnough(reqid, trans.file, trans.offset);
      Stream(reqid, trans.file, trans.offset)[start - SoFar()..]
    }

    constructor (trans: Transaction, reqid: U32)
      requires trans.Valid() && trans.offset == 0 && |trans.file| < 0x1_0000_0000
      ensures this.trans == trans && this.reqid == reqid && Valid(0)
      ensures Pending(0) == Stream(reqid, trans.file, 0)
    {
      this.trans, this.reqid := trans, reqid;
      header := Header(reqid, |trans.file|, 0);
      headerBytes := 0;
    }

    /** The chunk counts as acknowledged, and the header is rewritten for the next. */
    method NextChunk()
      requires |trans.file| < 0x1_0000_0000 && trans.Valid() && !trans.InLastChunk()
      requires header == Header(reqid, |trans.file|, trans.offset)
      modifies this`header, this`headerBytes, trans
      ensures trans.offset == old(trans.offset + trans.remaining)
      ensures Valid(SoFar()) && SoFar() == old(SoFar()) + HEADER_SIZE + old(trans.remaining)
      ensures Pending(SoFar()) == Stream(reqid, trans.file, old(trans.offset + trans.remaining))
    {
      hide HeaderStart;
      trans.ChunkAcked();
      header := header[..14] + Le32(trans.offset) + header[18..];
      header := header[..18] + Le32(trans.remaining);
      headerBytes := headerBytes + HEADER_SIZE;
      assert header == Header(reqid, |trans.file|, trans.offset);
    }

    method FillHeader(buf: array<Byte>, at: nat, len: nat, pos: nat) returns (n: nat)
      requires At(SoFar()) && at + len <= buf.Length && pos <= HEADER_SIZE + trans.remaining
      modifies buf
      ensures n == if pos < HEADER_SIZE then Min(HEADER_SIZE - pos, len) else 0
      ensures FilledFrom(buf[..], old(buf[..]), at, Stream(reqid, trans.file, trans.offset), pos, n)
    {
      hide Stream, Header, HeaderStart, FilledFrom, ChunkLen, Wrote;
      ghost var was, whole := buf[..], Stream(reqid, trans.file, trans.offset);
      StreamParts(reqid, trans.file, trans.offset);
      FilledNothing(was, at, whole, pos);
      n := 0;
      if pos < HEADER_SIZE {
        n := Min(HEADER_SIZE - pos, len);
        InHeader(whole, header, pos, n);
        Emit(header[pos..pos + n], buf, at, was, at, whole, pos, 0);
      }
    }

    method FillData(buf: array<Byte>, at: nat, len: nat, pos: nat) returns (n: nat, done: bool)
      requires At(SoFar()) && at + len <= buf.Length && HEADER_SIZE <= pos <= HEADER_SIZE + trans.remaining
      modifies buf
      ensures n == Min(len, HEADER_SIZE + trans.remaining - pos)
      ensures FilledFrom(buf[..], old(buf[..]), at, Stream(reqid, trans.file, trans.offset), pos, n)
      ensures done <==> pos + n == HEADER_SIZE + trans.remaining
    {
      hide Wrote, Stream, Header, HeaderStart, ChunkLen;
      var left;
      n, left, done := trans.FillBuffer(buf, at, len, pos - HEADER_SIZE);
      assert left == 0;
      StreamParts(reqid, trans.file, trans.offset);
      InChunk(Stream(reqid, trans.file, trans.offset), trans.file, trans.offset, trans.remaining, pos, n);
    }

    /** The header and the data of the current chunk, as far as there is room. */
    method FillChunk(buf: array<Byte>, at: nat, len: nat, start: nat) returns (n: nat, done: bool)
      requires At(start) && at + len <= buf.Length
      modifies buf
      ensures n == Min(len, SoFar() + HEADER_SIZE + trans.remaining - start)
      ensures FilledFrom(buf[..], old(buf[..]), at, Stream(reqid, trans.file, trans.offset), start - SoFar(), n)
      ensures done ==> start + n == SoFar() + HEADER_SIZE + trans.remaining
      ensures !done ==> n == len
      ensures !done && n > 0 && start + n == SoFar() + HEADER_SIZE + trans.remaining ==> trans.remaining == 0
    {
      hide Wrote, Stream, Header, HeaderStart, FilledFrom, ChunkLen, SameOutside;
      ghost var was, whole := buf[..], Stream(reqid, trans.file, trans.offset);
      var pos := start - SoFar();
      n := FillHeader(buf, at, len, pos);
      done := false;
      if len > n {
        ghost var mid := buf[..];
        var more;
        more, done := FillData(buf, at + n, len - n, pos + n);
        FilledBoth(was, mid, buf[..], at, whole, pos, n, more);
        n := n + more;
      }
    }

    method FillHere(buf: array<Byte>, at: nat, len: nat, start: nat) returns (n: nat, done: bool)
      requires At(start) && at + len <= buf.Length
      modifies buf
      ensures At(start + n) && n <= len && n <= |Pending(start)|
      ensures FilledFrom(buf[..], old(buf[..]), at, Pending(start), 0, n)
      ensures Pending(start + n) == Pending(start)[n..]
      ensures done ==> start + n == SoFar() + HEADER_SIZE + trans.remaining
      ensures !done ==> n == len && (Valid(start) ==> Valid(start + n)) && (Unfinished(start) ==> Unfinished(start + n))
    {
      hide Stream, Header, HeaderStart, FilledFrom, ChunkLen, Wrote;
      ghost var was, stream := buf[..], Stream(reqid, trans.file, trans.offset);
      StreamParts(reqid, trans.file, trans.offset);
      n, done := FillChunk(buf, at, len, start);
      FilledTail0(buf[..], was, at, stream, start - SoFar(), n);
      assert stream[start - SoFar()..][n..] == stream[start - SoFar() + n..];
    }

    /** Going on in the same buffer with the next chunk. */
    method FillNextChunk(buf: array<Byte>, at: nat, len: nat, start: nat) returns (n: nat, done: bool)
      requires At(start) && start == SoFar() + HEADER_SIZE + trans.remaining && !trans.InLastChunk()
      requires at + len <= buf.Length
      modifies this`header, this`headerBytes, trans, buf
      ensures At(start + n) && trans.offset > old(trans.offset)
      ensures n <= len && n <= |old(Pending(start))|
      ensures FilledFrom(buf[..], old(buf[..]), at, old(Pending(start)), 0, n)
      ensures Pending(start + n) == old(Pending(start))[n..]
      ensures done ==> start + n == SoFar() + HEADER_SIZE + trans.remaining
      ensures !done ==> n == len && Valid(start + n) && Unfinished(start + n)
    {
      hide Stream, Header, HeaderStart, FilledFrom;
      StreamParts(reqid, trans.file, trans.offset);
      NextChunk();
      n, done := FillHere(buf, at, len, start);
    }

    /** fill_buffer: as much of the download as fits, over as many chunks as that takes. */
    method FillBuffer(buf: array<Byte>, at: nat, len: nat, start: nat) returns (n: nat, done: bool)
      requires Valid(start) && at + len <= buf.Length
      modifies this`header, this`headerBytes, trans, buf
      ensures n == Min(len, |old(Pending(start))|) && Valid(start + n)
      ensures FilledFrom(buf[..], old(buf[..]), at, old(Pending(start)), 0, n)
      ensures Pending(start + n) == old(Pending(start))[n..]
      ensures done ==> Pending(start + n) == []
      ensures !done ==> n == len && (|trans.file| > 0 && old(Pending(start)) != [] ==> Pending(start + n) != [])
    {
      hide Stream, Header, HeaderStart, FilledFrom, ChunkLen, Wrote, Pending;
      MoreToCome(start);
      ghost var was, whole := buf[..], Pending(start);
      n, done := FillHere(buf, at, len, start);
      while done && !trans.InLastChunk()
        invariant At(start + n) && n <= len && n <= |whole|
        invariant FilledFrom(buf[..], was, at, whole, 0, n)
        invariant Pending(start + n) == whole[n..]
        invariant done ==> start + n == SoFar() + HEADER_SIZE + trans.remaining
        invariant !done ==> n == len && Valid(start + n)
        invariant !done && |trans.file| > 0 && whole != [] ==> Unfinished(start + n)
        decreases |trans.file| - trans.offset
      {
        ghost var mid := buf[..];
        var more;
        more, done := FillNextChunk(buf, at + n, len - n, start + n);
        FilledLater(was, mid, buf[..], at, whole, n, more);
        n := n + more;
      }
      if done {
        AtEnd(start + n);
      } else {
        MoreToCome(start + n);
      }
    }

    /** There are bytes left of a chunk that has data. */
    ghost predicate Unfinished(start: nat)
      reads this, trans
    {
      trans.remaining > 0 && start < SoFar() + HEADER_SIZE + trans.remaining
    }

    lemma MoreToCome(start: nat)
      requires Valid(start)
      ensures |trans.file| > 0 ==> (Unfinished(start) <==> Pending(start) != [])
    {
      hide Stream, Header;
      StreamParts(reqid, trans.file, trans.offset);
    }

    lemma AtEnd(start: nat)
      requires At(start) && start == SoFar() + HEADER_SIZE + trans.remaining && trans.InLastChunk()
      ensures Pending(start) == []
    {
      hide Stream, Header;
      StreamParts(reqid, trans.file, trans.offset);
    }

    /** The pieces of the current chunk; not done for lack of room. */
    method ChunkVecs(limit: nat, pos: nat) returns (vecs: seq<Bytes>, done: bool)
      requires At(SoFar()) && pos <= HEADER_SIZE + trans.remaining && limit > 0
      ensures |vecs| <= limit && (!done ==> |vecs| == limit)
          && (pos < HEADER_SIZE + trans.remaining ==> Flat(vecs) != [])
      ensures
        var chunk := (header + trans.file[trans.offset..trans.offset + trans.remaining])[pos..];
        Flat(vecs) <= chunk && (done ==> Flat(vecs) == chunk)
    {
      hide Stream, Header, HeaderStart, ChunkLen, Flat;
      ghost var data := trans.file[trans.offset..trans.offset + trans.remaining];
      FlatOne(header[Min(pos, HEADER_SIZE)..]);
      CutInTwo(header, data, pos);
      vecs := [];
      FlatOfNone();
      var left := 0;
      if pos < HEADER_SIZE {
        vecs := [header[pos..]];
      } else {
        left := pos - HEADER_SIZE;
      }
      done := |vecs| < limit;
      if done {
        var more;
        more, left := trans.FillIovecs(left);
        FlatAppend(vecs, more);
        vecs := vecs + more;
      }
    }

    /** fill_iovecs: a list that ends at the end of a chunk that is not the last is filled up with
        empty pieces, so that nothing else is written after it. */
    method FillIovecs(limit: nat, start: nat) returns (vecs: seq<Bytes>)
      requires Valid(start) && limit > 0
      ensures VecsOk(vecs, limit, Pending(start))
      ensures start < SoFar() + HEADER_SIZE + trans.remaining ==> Flat(vecs) != []
      ensures !trans.InLastChunk() ==> start + |Flat(vecs)| <= SoFar() + HEADER_SIZE + trans.remaining
    {
      hide Stream, Header, HeaderStart, ChunkLen, Flat;
      ghost var stream := Stream(reqid, trans.file, trans.offset);
      StreamParts(reqid, trans.file, trans.offset);
      var done;
      vecs, done := ChunkVecs(limit, start - SoFar());
      ChunkAndTail(stream, header, trans.file[trans.offset..trans.offset + trans.remaining], start - SoFar());
      if done && !trans.InLastChunk() {
        Padding(vecs, limit - |vecs|);
        vecs := vecs + seq(limit - |vecs|, _ => []);
      }
    }

    /** iovecs_written_bytes: never more than was handed out, so nothing is left over when a chunk
        that is not the last is complete. */
    method IovecsWrittenBytes(count: nat, start: nat) returns (left: nat, done: bool)
      requires Valid(start)
      requires !trans.InLastChunk() ==> start + count <= SoFar() + HEADER_SIZE + trans.remaining
      modifies this`header, this`headerBytes, trans
      ensures done <==> count >= |old(Pending(start))|
      ensures left == if done then count - |old(Pending(start))| else 0
      ensures !done ==> Valid(start + count) && Pending(start + count) == old(Pending(start))[count..]
    {
      hide Stream, Header, HeaderStart, ChunkLen;
      StreamParts(reqid, trans.file, trans.offset);
      var pos, byteCt := start - SoFar(), count;
      TailOfTail(Stream(reqid, trans.file, trans.offset), pos, count);
      if pos < HEADER_SIZE {
        if byteCt + pos < HEADER_SIZE {
          return 0, false;
        }
        byteCt, pos := byteCt - (HEADER_SIZE - pos), HEADER_SIZE;
      }
      left, done := trans.IovecsWrittenBytes(byteCt, pos - HEADER_SIZE);
      if done && !trans.InLastChunk() {
        assert left == 0;
        NextChunk();
        StreamLongEnough(reqid, trans.file, trans.offset);
        return 0, false;
      }
    }
  }

  /** How a connection takes bytes: a buffer of some size is filled and sent, or pieces are handed
      to writev, which accepts some of what it was given. */
  datatype Slice = Buffered(len: nat) | Gathered(limit: nat, count: nat)

  predicate HasRoom(slice: Slice) { if slice.Buffered? then slice.len > 0 else slice.count > 0 }

  /** How many writes can take anything. */
  function Roomy(slices: seq<Slice>): nat {
    if slices == [] then 0
    else Roomy(slices[..|slices| - 1]) + if HasRoom(slices[|slices| - 1]) then 1 else 0
  }

  /** The room in all buffers. */
  function Room(slices: seq<Slice>): nat {
    if slices == [] then 0
    else Room(slices[..|slices| - 1]) + if slices[|slices| - 1].Buffered? then slices[|slices| - 1].len else 0
  }

  lemma RoomMore(slices: seq<Slice>, i: nat)
    requires i < |slices|
    ensures Roomy(slices[..i + 1]) == Roomy(slices[..i]) + if HasRoom(slices[i]) then 1 else 0
    ensures Room(slices[..i + 1]) == Room(slices[..i]) + if slices[i].Buffered? then slices[i].len else 0
  {
    assert slices[..i + 1][..i] == slices[..i];
  }

  lemma {:induction false} RoomAll(slices: seq<Slice>, i: nat)
    requires i <= |slices|
    ensures Roomy(slices[..i]) <= Roomy(slices) && Room(slices[..i]) <= Room(slices)
  {
    if i == |slices| {
      assert slices[..i] == slices;
    } else {
      RoomAll(slices[..|slices| - 1], i);
      assert slices[..|slices| - 1][..i] == slices[..i];
    }
  }

  predicate SliceOk(slice: Slice) { slice.Gathered? ==> slice.limit > 0 }

  /** One buffer; out is what the connection is given. */
  method SendBuffer(msg: FileMessage, len: nat, start: nat) returns (out: Bytes, done: bool)
    requires msg.Valid(start)
    modifies msg`header, msg`headerBytes, msg.trans
    ensures out <= old(msg.Pending(start)) && msg.Valid(start + |out|) && |out| == Min(len, |old(msg.Pending(start))|)
    ensures msg.Pending(start + |out|) == old(msg.Pending(start))[|out|..]
    ensures done ==> msg.Pending(start + |out|) == []
    ensures !done && |msg.trans.file| > 0 && old(msg.Pending(start)) != [] ==> msg.Pending(start + |out|) != []
  {
    hide Stream, Header, HeaderStart, FilledFrom, ChunkLen, Wrote, Flat;
    ghost var pending := msg.Pending(start);
    var buf := new Byte[len];
    ghost var was := buf[..];
    var n;
    n, done := msg.FillBuffer(buf, 0, len, start);
    FilledFront(buf[..], was, pending, n);
    out := buf[..n];
  }

  /** One writev, and what it accepted. */
  method SendVecs(msg: FileMessage, limit: nat, count: nat, start: nat) returns (out: Bytes, done: bool)
    requires msg.Valid(start) && limit > 0
    modifies msg`header, msg`headerBytes, msg.trans
    ensures out <= old(msg.Pending(start)) && (count > 0 && old(msg.Pending(start)) != [] ==> out != [])
    ensures !done ==> msg.Valid(start + |out|) && msg.Pending(start + |out|) == old(msg.Pending(start))[|out|..]
    ensures done <==> out == old(msg.Pending(start))
  {
    hide Stream, Header, HeaderStart, ChunkLen, Flat;
    if start == msg.SoFar() + HEADER_SIZE + msg.trans.remaining {
      msg.AtEnd(start);
    }
    var vecs := msg.FillIovecs(limit, start);
    var n := Min(count, |Flat(vecs)|);
    out := Flat(vecs)[..n];
    var left;
    left, done := msg.IovecsWrittenBytes(n, start);
  }

  method TakeSlice(msg: FileMessage, slice: Slice, start: nat, ghost sent: Bytes, ghost stream: Bytes)
    returns (out: Bytes, start': nat, done: bool)
    requires msg.Valid(start) && SliceOk(slice) && |sent| == start && sent + msg.Pending(start) == stream
    modifies msg`header, msg`headerBytes, msg.trans
    ensures start' == |sent + out|
    ensures HasRoom(slice) && |sent| < |stream| ==> out != []
    ensures slice.Buffered? ==> |out| == Min(slice.len, |stream| - |sent|)
    ensures !done ==> msg.Valid(start') && sent + out + msg.Pending(start') == stream
    ensures done ==> sent + out == stream
    ensures !done && |msg.trans.file| > 0 && |sent| < |stream| ==> |sent + out| < |stream|
  {
    hide Stream, Header, HeaderStart, ChunkLen, FileMessage.Pending;
    ghost var pending := msg.Pending(start);
    match slice {
      case Buffered(len) => out, done := SendBuffer(msg, len, start);
      case Gathered(limit, count) => out, done := SendVecs(msg, limit, count, start);
    }
    SplitAt(sent, pending, |out|);
    start' := start + |out|;
  }

  lemma FilledFront(now: Bytes, was: Bytes, whole: Bytes, n: nat)
    requires FilledFrom(now, was, 0, whole, 0, n)
    ensures n <= |now| && now[..n] == whole[..n]
  {
  }

  lemma SplitAt(sent: Bytes, pending: Bytes, n: nat)
    requires n <= |pending|
    ensures sent + pending[..n] + pending[n..] == sent + pending
    ensures n == |pending| ==> sent + pending[..n] == sent + pending
  {
  }

  /** Any run of writes.  The bytes sent are always a prefix of the stream, as long as the position
      the queue keeps, and a finished download has sent exactly the stream, which is the file.  That
      it is finished is known as soon as it is, unless the file is empty. */
  method Download(file: Bytes, reqid: U32, slices: seq<Slice>) returns (sent: Bytes, start: nat, done: bool)
    requires |file| < 0x1_0000_0000 && forall i | 0 <= i < |slices| :: SliceOk(slices[i])
    ensures sent <= Stream(reqid, file, 0) && |sent| == start
    ensures |sent| >= Min(Roomy(slices), |Stream(reqid, file, 0)|)
    ensures (forall i | 0 <= i < |slices| :: slices[i].Buffered?) ==>
        |sent| == Min(Room(slices), |Stream(reqid, file, 0)|)
    ensures done ==> sent == Stream(reqid, file, 0) && Payloads(sent) == file
    ensures file != [] ==> (done <==> sent == Stream(reqid, file, 0))
  {
    StreamLongEnough(reqid, file, 0);
    StreamIsFile(reqid, file, 0);
    var trans := new Transaction(file);
    var msg := new FileMessage(trans, reqid);
    sent, start, done := SendSlices(msg, slices);
  }

  method SendSlices(msg: FileMessage, slices: seq<Slice>) returns (sent: Bytes, start: nat, done: bool)
    requires msg.Valid(0) && forall i | 0 <= i < |slices| :: SliceOk(slices[i])
    modifies msg, msg.trans
    ensures sent <= old(msg.Pending(0)) && |sent| == start
    ensures |sent| >= Min(Roomy(slices), |old(msg.Pending(0))|)
    ensures (forall i | 0 <= i < |slices| :: slices[i].Buffered?) ==> |sent| == Min(Room(slices), |old(msg.Pending(0))|)
    ensures done ==> sent == old(msg.Pending(0))
    ensures !done && |msg.trans.file| > 0 && old(msg.Pending(0)) != [] ==> |sent| < |old(msg.Pending(0))|
  {
    hide Stream, Header, HeaderStart, ChunkLen, SliceOk, Flat, HasRoom, Roomy, Room, FileMessage.Pending;
    ghost var stream := msg.Pending(0);
    sent, start, done := [], 0, false;
    NoRoom();
    assert slices[..0] == [] && slices[..|slices|] == slices;
    for i := 0 to |slices|
      invariant |sent| == start && msg.Valid(start) && sent + msg.Pending(start) == stream
      invariant |msg.trans.file| > 0 && stream != [] ==> |sent| < |stream|
      invariant Progress(slices, i, |sent|, |stream|)
    {
      var out;
      out, start, done := TakeSlice(msg, slices[i], start, sent, stream);
      ProgressMore(slices, i, |sent|, |out|, |stream|);
      sent := sent + out;
      if done {
        ProgressDone(slices, i + 1, |stream|);
        return;
      }
    }
  }

  /** So much has been sent at least, and exactly so much if there are only buffers. */
  predicate Progress(slices: seq<Slice>, i: nat, n: nat, total: nat)
    requires i <= |slices|
  {
    && n >= Min(Roomy(slices[..i]), total)
    && ((forall j | 0 <= j < |slices| :: slices[j].Buffered?) ==> n == Min(Room(slices[..i]), total))
  }

  lemma ProgressMore(slices: seq<Slice>, i: nat, n: nat, more: nat, total: nat)
    requires i < |slices| && Progress(slices, i, n, total) && n + more <= total
    requires HasRoom(slices[i]) && n < total ==> more > 0
    requires slices[i].Buffered? ==> more == Min(slices[i].len, total - n)
    ensures Progress(slices, i + 1, n + more, total)
  {
    RoomMore(slices, i);
  }

  lemma ProgressDone(slices: seq<Slice>, i: nat, total: nat)
    requires i <= |slices| && Progress(slices, i, total, total)
    ensures Progress(slices, |slices|, total, total)
  {
    RoomAll(slices, i);
    assert slices[..|slices|] == slices;
  }

  lemma TailOfTail(s: Bytes, from: nat, k: nat)
    requires from <= |s|
    ensures from + k <= |s| ==> s[from..][k..] == s[from + k..]
  {
  }

  lemma NoRoom()
    ensures Roomy([]) == 0 && Room([]) == 0
  {
  }

  lemma FlatOne(b: Bytes)
    ensures Flat([b]) == b
  {
    assert [b][1..] == [];
  }

  lemma ChunkAndTail(stream: Bytes, header: Bytes, data: Bytes, pos: nat)
    requires |header| == HEADER_SIZE && HEADER_SIZE + |data| <= |stream| && pos <= HEADER_SIZE + |data|
    requires stream[..HEADER_SIZE] == header && stream[HEADER_SIZE..HEADER_SIZE + |data|] == data
    ensures stream[pos..] == (header + data)[pos..] + stream[HEADER_SIZE + |data|..]
  {
    var chunk, tail := header + data, stream[HEADER_SIZE + |data|..];
    assert stream == stream[..HEADER_SIZE] + stream[HEADER_SIZE..HEADER_SIZE + |data|] + tail;
    assert stream == chunk + tail;
  }

  lemma CutInTwo(a: Bytes, b: Bytes, pos: nat)
    requires pos <= |a| + |b|
    ensures (a + b)[pos..] == if pos < |a| then a[pos..] + b else b[pos - |a|..]
  {
  }

  lemma {:induction false} Padding(vecs: seq<Bytes>, k: nat)
    ensures Flat(vecs + seq(k, _ => [])) == Flat(vecs)
    decreases k
  {
    var pad: seq<Bytes> := seq(k, _ => []);
    if k == 0 {
      assert vecs + pad == vecs;
    } else {
      VecsMore(vecs, []);
      Padding(vecs + [[]], k - 1);
      assert vecs + pad == vecs + [[]] + seq(k - 1, _ => []);
    }
  }

  lemma InHeader(whole: Bytes, header: Bytes, pos: nat, n: nat)
    requires |header| <= |whole| && whole[..|header|] == header && pos + n <= |header|
    ensures header[pos..pos + n] == whole[pos..pos + n]
  {
  }

  lemma InChunk(whole: Bytes, file: Bytes, off: nat, len: nat, pos: nat, n: nat)
    requires off + len <= |file| && HEADER_SIZE + len <= |whole|
    requires whole[HEADER_SIZE..HEADER_SIZE + len] == file[off..off + len]
    requires HEADER_SIZE <= pos && pos + n <= HEADER_SIZE + len
    ensures file[off + pos - HEADER_SIZE..off + pos - HEADER_SIZE + n] == whole[pos..pos + n]
  {
    SubSlice(whole, HEADER_SIZE, len, pos - HEADER_SIZE, n);
    SubSlice(file, off, len, pos - HEADER_SIZE, n);
  }

  lemma SubSlice(s: Bytes, from: nat, len: nat, a: nat, n: nat)
    requires from + len <= |s| && a + n <= len
    ensures s[from..from + len][a..a + n] == s[from + a..from + a + n]
  {
    var t, piece := s[from..from + len], s[from + a..from + a + n];
    assert t == s[from..from + a] + (piece + s[from + a + n..from + len]);
    assert t[a..] == piece + s[from + a + n..from + len];
  }

  lemma FilledTail0(now: Bytes, was: Bytes, at: nat, whole: Bytes, start: nat, n: nat)
    requires FilledFrom(now, was, at, whole, start, n)
    ensures FilledFrom(now, was, at, whole[start..], 0, n)
  {
    assert whole[start..][0..n] == whole[start..start + n];
  }

  lemma FilledBoth(was: Bytes, mid: Bytes, now: Bytes, at: nat, whole: Bytes, start: nat, n: nat, more: nat)
    requires FilledFrom(mid, was, at, whole, start, n) && FilledFrom(now, mid, at + n, whole, start + n, more)
    ensures FilledFrom(now, was, at, whole, start, n + more)
  {
    FilledThen(was, mid, now, at, whole, start, n, whole[start + n..start + n + more]);
  }

  lemma FilledLater(was: Bytes, mid: Bytes, now: Bytes, at: nat, whole: Bytes, n: nat, more: nat)
    requires FilledFrom(mid, was, at, whole, 0, n) && FilledFrom(now, mid, at + n, whole[n..], 0, more)
    ensures FilledFrom(now, was, at, whole, 0, n + more)
    ensures n + more <= |whole| && whole[n..][more..] == whole[n + more..]
  {
    assert whole[n..][0..more] == whole[n..n + more];
    FilledThen(was, mid, now, at, whole, 0, n, whole[n..n + more]);
  }

  lemma StreamLongEnough(reqid: U32, file: Bytes, off: nat)
    requires off <= |file| < 0x1_0000_0000
    ensures |Stream(reqid, file, off)| >= HEADER_SIZE + ChunkLen(|file|, off)
  {
  }

  /** Header, data, and then the next chunk unless this is the last. */
  lemma StreamParts(reqid: U32, file: Bytes, off: nat)
    requires off <= |file| < 0x1_0000_0000
    ensures
      var s, n := Stream(reqid, file, off), ChunkLen(|file|, off);
      && HEADER_SIZE + n <= |s|
      && s[..HEADER_SIZE] == Header(reqid, |file|, off)
      && s[HEADER_SIZE..HEADER_SIZE + n] == file[off..off + n]
      && s[HEADER_SIZE + n..] == if off + n >= |file| then [] else Stream(reqid, file, off + n)
  {
    hide Header;
  }
}

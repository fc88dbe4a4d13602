/** Manifests as messages (FileServerMessage in FileMessage.cc): a header, the data of a chunk, and two
    zeros, which are handed out and counted apart from the rest. */
module ManifestSending {
  import opened Wire
  import opened Writers
  import opened Manifest

  const HEADER_SIZE := 28
  const MANIFEST_REQUEST: U32 := 20
  const Padding: Bytes := [0, 0]

  // ---------- What is to be sent ----------

  function NextChunk(rs: seq<Bytes>): nat { Fitting(rs, FILE_CHUNK_SIZE) }

  function ChunkBytes(rs: seq<Bytes>): (b: Bytes)
    ensures |b| <= FILE_CHUNK_SIZE
  {
    FittingIsGreedy(rs, FILE_CHUNK_SIZE);
    Flat(rs[..NextChunk(rs)])
  }

  /** A chunk takes whole records of 32768 bytes together, and as many as fit. */
  lemma ChunkIsFull(rs: seq<Bytes>)
    ensures |ChunkBytes(rs)| <= 32768 && ChunkBytes(rs) == Flat(rs[..NextChunk(rs)])
    ensures NextChunk(rs) < |rs| ==> |Flat(rs[..NextChunk(rs) + 1])| > 32768
    ensures Oversized(rs) <==> exists i :: 0 <= i < |rs| && |rs[i]| > 32768
  {
    FittingIsGreedy(rs, 32768);
  }

  /** chunk_length counts 16-bit words, and one more for the zeros. */
  function Header(reqid: U32, count: U32, len: nat): (h: Bytes)
    requires len <= FILE_CHUNK_SIZE
    ensures |h| == HEADER_SIZE
  {
    var words := len / 2 + 1;
    Le32(HEADER_SIZE + 2 * words)
    + (Le32(MANIFEST_REQUEST) + (Le32(reqid) + (Le32(0) + (Le32(1) + (Le32(count) + Le32(words))))))
  }

  function Message(reqid: U32, count: U32, rs: seq<Bytes>): (m: Bytes)
    ensures |m| == HEADER_SIZE + |ChunkBytes(rs)| + 2
  {
    Header(reqid, count, |ChunkBytes(rs)|) + (ChunkBytes(rs) + Padding)
  }

  /** The records that are left after some chunks. */
  function Later(rs: seq<Bytes>, chunks: nat): seq<Bytes> {
    if chunks == 0 then rs else Later(rs[NextChunk(rs)..], chunks - 1)
  }

  /** The messages of the first few chunks. */
  function Stream(reqid: U32, count: U32, rs: seq<Bytes>, chunks: nat): Bytes
    decreases chunks
  {
    if chunks == 0 || rs == [] then []
    else Message(reqid, count, rs) + Stream(reqid, count, rs[NextChunk(rs)..], chunks - 1)
  }

  lemma {:induction false} StreamNext(reqid: U32, count: U32, rs: seq<Bytes>, chunks: nat)
    requires Later(rs, chunks) != []
    ensures
      var rest := Later(rs, chunks);
      && Later(rs, chunks + 1) == rest[NextChunk(rest)..]
      && Stream(reqid, count, rs, chunks + 1) == Stream(reqid, count, rs, chunks) + Message(reqid, count, rest)
    decreases chunks
  {
    hide Message, Fitting;
    NoneLater(chunks);
    if chunks == 0 {
      assert Stream(reqid, count, rs, 1) == Message(reqid, count, rs) + [];
    } else {
      var next := rs[NextChunk(rs)..];
      StreamNext(reqid, count, next, chunks - 1);
      Assoc(Message(reqid, count, rs), Stream(reqid, count, next, chunks - 1),
          Message(reqid, count, Later(rs, chunks)));
    }
  }

  lemma {:induction false} NoneLater(chunks: nat)
    ensures Later([], chunks) == []
  {
    if chunks > 0 {
      var none: seq<Bytes> := [];
      assert none[NextChunk(none)..] == none;
      NoneLater(chunks - 1);
    }
  }

  // ---------- What a client makes of it ----------

  predicate Even(rs: seq<Bytes>) { forall i | 0 <= i < |rs| :: |rs[i]| % 2 == 0 }

  lemma {:induction false} EvenFlat(rs: seq<Bytes>)
    requires Even(rs)
    ensures |Flat(rs)| % 2 == 0
  {
    if rs != [] {
      EvenFlat(rs[1..]);
    }
  }

  lemma HeaderReads(reqid: U32, count: U32, len: nat, rest: Bytes)
    requires len <= FILE_CHUNK_SIZE
    ensures Read32(Header(reqid, count, len) + rest, 0) == HEADER_SIZE + 2 * (len / 2 + 1)
    ensures Read32(Header(reqid, count, len) + rest, 24) == len / 2 + 1
  {
    hide Le32, Read32;
    var words := len / 2 + 1;
    var c := Le32(count) + Le32(words);
    var d := Le32(0) + (Le32(1) + c);
    var e := Le32(MANIFEST_REQUEST) + (Le32(reqid) + d);
    var h := Header(reqid, count, len);
    assert h == Le32(HEADER_SIZE + 2 * words) + e && e[8..] == d && d[8..] == c;
    Assoc(Le32(HEADER_SIZE + 2 * words), e, rest);
    Take32Le32(HEADER_SIZE + 2 * words, e + rest);
    Take32Le32(words, rest);
    assert h[24..] == Le32(words);
    assert (h + rest)[24..] == Le32(words) + rest;
    ReadFrom(h + rest, 24);
  }

  /** A message is as long as it says exactly if its data is an even number of bytes. */
  lemma AnnouncedExactly(reqid: U32, count: U32, rs: seq<Bytes>)
    ensures Read32(Message(reqid, count, rs), 0) == |Message(reqid, count, rs)| <==> |ChunkBytes(rs)| % 2 == 0
  {
    hide Header, Read32, ChunkBytes;
    HeaderReads(reqid, count, |ChunkBytes(rs)|, ChunkBytes(rs) + Padding);
  }

  /** A client that believes the number of words in every header. */
  function Contents(s: Bytes): Bytes
    decreases |s|
  {
    if |s| < HEADER_SIZE || Read32(s, 24) == 0 || |s| < HEADER_SIZE + 2 * Read32(s, 24) then []
    else
      var end := HEADER_SIZE + 2 * Read32(s, 24);
      s[HEADER_SIZE..end - 2] + Contents(s[end..])
  }

  lemma ContentsStep(reqid: U32, count: U32, data: Bytes, rest: Bytes)
    requires |data| <= FILE_CHUNK_SIZE && |data| % 2 == 0
    ensures Contents(Header(reqid, count, |data|) + (data + Padding) + rest) == data + Contents(rest)
  {
    hide Header, Read32;
    var h := Header(reqid, count, |data|);
    var s := h + (data + Padding) + rest;
    Assoc(h, data + Padding, rest);
    HeaderReads(reqid, count, |data|, data + Padding + rest);
    assert s[HEADER_SIZE..HEADER_SIZE + |data|] == data && s[HEADER_SIZE + |data| + 2..] == rest;
  }

  /** Records of even length arrive, in order, as far as messages have been sent. */
  lemma {:induction false} StreamIsRecords(reqid: U32, count: U32, rs: seq<Bytes>, chunks: nat)
    requires Even(rs)
    ensures Contents(Stream(reqid, count, rs, chunks)) + Flat(Later(rs, chunks)) == Flat(rs)
    decreases chunks
  {
    hide Fitting, Flat, Header, Read32, Contents;
    NoContents();
    FlatOfNone();
    if chunks == 0 {
      assert [] + Flat(rs) == Flat(rs);
    } else if rs == [] {
      NoneLater(chunks);
      assert [] + Flat(rs) == Flat(rs);
    } else {
      var k := NextChunk(rs);
      var data, rest := ChunkBytes(rs), Stream(reqid, count, rs[k..], chunks - 1);
      EvenFlat(rs[..k]);
      ContentsStep(reqid, count, data, rest);
      StreamIsRecords(reqid, count, rs[k..], chunks - 1);
      Assoc(data, Contents(rest), Flat(Later(rs, chunks)));
      assert rs == rs[..k] + rs[k..];
      FlatAppend(rs[..k], rs[k..]);
    }
  }

  lemma NoContents()
    ensures Contents([]) == []
  {
  }

  // ---------- How far a transfer can get ----------

  predicate Oversized(rs: seq<Bytes>) { exists i :: 0 <= i < |rs| && |rs[i]| > FILE_CHUNK_SIZE }

  lemma {:induction false} FittingFits(rs: seq<Bytes>, limit: nat, i: nat)
    requires i < Fitting(rs, limit)
    ensures |rs[i]| <= limit
    decreases rs
  {
    if i > 0 {
      FittingFits(rs[1..], limit - |rs[0]|, i - 1);
    }
  }

  /** A record that is too long stays for good, and with it everything after it. */
  lemma {:induction false} OversizedStays(rs: seq<Bytes>, chunks: nat)
    ensures Oversized(rs) <==> Oversized(Later(rs, chunks))
    decreases chunks
  {
    if chunks > 0 {
      var k := NextChunk(rs);
      var rest := rs[k..];
      if i :| 0 <= i < |rs| && |rs[i]| > FILE_CHUNK_SIZE {
        if i < k {
          FittingFits(rs, FILE_CHUNK_SIZE, i);
        }
        assert |rest[i - k]| > FILE_CHUNK_SIZE;
      }
      if i :| 0 <= i < |rest| && |rest[i]| > FILE_CHUNK_SIZE {
        assert |rs[k + i]| > FILE_CHUNK_SIZE;
      }
      OversizedStays(rest, chunks - 1);
    }
  }

  /** No stream is longer than this if every chunk has a record. */
  function Most(rs: seq<Bytes>): nat { (HEADER_SIZE + 2) * |rs| + |Flat(rs)| }

  lemma {:induction false} StreamBounded(reqid: U32, count: U32, rs: seq<Bytes>, chunks: nat)
    requires !Oversized(rs)
    ensures |Stream(reqid, count, rs, chunks)| <= Most(rs)
    decreases chunks
  {
    hide Flat;
    if chunks > 0 && rs != [] {
      var k := NextChunk(rs);
      assert k > 0 && !Oversized(rs[k..]);
      StreamBounded(reqid, count, rs[k..], chunks - 1);
      assert rs == rs[..k] + rs[k..];
      FlatAppend(rs[..k], rs[k..]);
    }
  }

  // ---------- The message ----------

  /** What is offered of a message of which start bytes are said to be out. */
  function Offered(data: Bytes, start: nat): Bytes {
    if start < HEADER_SIZE && start <= |data| then data[start..]
    else if start <= |data + Padding| then (data + Padding)[start..] else []
  }

  class FileServerMessage {
    const trans: Transaction
    const header: Bytes

    ghost predicate Valid()
      reads trans
    {
      |header| == HEADER_SIZE && trans.Valid() && !trans.FileComplete()
    }

    ghost function Data(): Bytes
      requires trans.Valid()
      reads trans
    {
      header + trans.Payload()
    }

    ghost function Whole(): Bytes
      requires trans.Valid()
      reads trans
    {
      Data() + Padding
    }

    ghost predicate For(trans: Transaction, reqid: U32, count: U32)
      reads this, this.trans
    {
      && this.trans == trans && Valid() && trans.chunkRemaining <= FILE_CHUNK_SIZE
      && header == Header(reqid, count, trans.chunkRemaining)
    }

    constructor (trans: Transaction, reqid: U32, count: U32)
      requires trans.Valid() && !trans.FileComplete() && trans.chunkRemaining <= FILE_CHUNK_SIZE
      ensures For(trans, reqid, count)
    {
      this.trans, header := trans, Header(reqid, count, trans.chunkRemaining);
    }

    /** fill_iovecs: as long as the header is not out, the padding is held back. */
    method FillIovecs(limit: nat, start: nat) returns (vecs: seq<Bytes>)
      requires Valid() && limit > 0
      ensures VecsOk(vecs, limit, Offered(Data(), start))
      ensures start < |Whole()| ==> Flat(vecs) != []
    {
      hide Flat, VecsOk;
      if start < HEADER_SIZE {
        vecs := FillFront(limit, start);
      } else {
        vecs := FillBack(limit, start);
      }
    }

    method FillFront(limit: nat, start: nat) returns (vecs: seq<Bytes>)
      requires Valid() && limit > 0 && start < HEADER_SIZE
      ensures VecsOk(vecs, limit, Data()[start..]) && Flat(vecs) != []
    {
      hide Flat;
      var more, _ := trans.FillIovecs(limit - 1, 0);
      ghost var payload := trans.Payload();
      FlatFirst(header[start..], more);
      vecs := [header[start..]] + more;
      assert payload[0..] == payload && Data()[start..] == header[start..] + payload;
    }

    method FillBack(limit: nat, start: nat) returns (vecs: seq<Bytes>)
      requires Valid() && limit > 0 && HEADER_SIZE <= start
      ensures VecsOk(vecs, limit, Offered(Data(), start)) && (start < |Whole()| ==> Flat(vecs) != [])
    {
      hide Flat;
      FlatOfNone();
      var pos, pos' := start - HEADER_SIZE, 0;
      vecs, pos' := trans.FillIovecs(limit, pos);
      if start <= |Whole()| {
        WholeFrom(header, trans.Payload(), start);
      }
      if |vecs| < limit && pos' < 2 {
        VecsMore(vecs, Padding[pos'..]);
        vecs := vecs + [Padding[pos'..]];
      }
    }

    /** iovecs_written_bytes: the two zeros only count if they go out together, and any other two bytes
        count for them if they do not. */
    method IovecsWrittenBytes(count: nat, start: nat) returns (left: nat, done: bool)
      requires Valid()
      ensures done <==> if start <= |Data()| then start + count >= |Whole()| else count >= 2
      ensures left == if !done then 0 else if start <= |Data()| then start + count - |Whole()| else count - 2
    {
      var byteCt, pos := count, start;
      if pos < HEADER_SIZE {
        if byteCt + pos < HEADER_SIZE {
          return 0, false;
        }
        byteCt, pos := byteCt - (HEADER_SIZE - pos), HEADER_SIZE;
      }
      left, done := trans.IovecsWrittenBytes(byteCt, pos - HEADER_SIZE);
      if done {
        if left >= 2 {
          left := left - 2;
        } else {
          left, done := 0, false;
        }
      }
    }
  }

  lemma FlatFirst(v: Bytes, vecs: seq<Bytes>)
    ensures Flat([v] + vecs) == v + Flat(vecs)
  {
    assert ([v] + vecs)[1..] == vecs;
  }

  lemma WholeFrom(header: Bytes, payload: Bytes, start: nat)
    requires |header| == HEADER_SIZE <= start <= HEADER_SIZE + |payload| + 2
    ensures
      var pos := start - HEADER_SIZE;
      (header + payload + Padding)[start..] ==
        if pos <= |payload| then payload[pos..] + Padding else Padding[pos - |payload|..]
  {
  }

  /** A message queued behind a manifest's gets its pieces in front of the padding. */
  lemma PaddingHeldBack(data: Bytes, start: nat, vecs: seq<Bytes>, limit: nat)
    requires start <= |data| && VecsOk(vecs, limit, data[start..]) && |vecs| < limit
    ensures !VecsOk(vecs, limit, (data + Padding)[start..])
  {
    hide Flat;
    assert |(data + Padding)[start..]| == |data[start..]| + 2;
  }

  // ---------- What happens to the next message ----------

  /** The bytes of the next message that are taken by the connection and not counted, so that they are sent
      again: n bytes are written of what is offered of a manifest's message and of the next. */
  function Repeated(data: Bytes, start: nat, n: nat): nat {
    var own := |Offered(data, start)|;
    var taken := if n > own then n - own else 0;
    if start < HEADER_SIZE then Min(taken, 2)
    else if start <= |data| then 0
    else if start == |data| + 1 then if n >= 2 then 1 else 0
    else Min(n, 2)
  }

  /** One writev of a manifest's message and, if there is room in the list, of the one behind it; at is
      where the queue then takes that to be. */
  method SendBoth(msg: FileServerMessage, next: Bytes, gather: Gather, start: nat)
    returns (out: Bytes, finished: bool, at: nat)
    requires msg.Valid() && gather.limit > 0
    ensures out <= Offered(msg.Data(), start) + next
    ensures
      var own := |Offered(msg.Data(), start)|;
      at + Repeated(msg.Data(), start, |out|) == if |out| > own then |out| - own else 0
    ensures finished <==> if start <= |msg.Data()| then start + |out| >= |msg.Whole()| else |out| >= 2
  {
    hide Flat, Offered;
    var vecs := msg.FillIovecs(gather.limit, start);
    ghost var own := Offered(msg.Data(), start);
    OfferedSize(msg.Data(), start);
    if |vecs| < gather.limit {
      VecsMore(vecs, next);
      vecs := vecs + [next];
    }
    assert Flat(vecs) <= own + next;
    var n := Min(gather.count, |Flat(vecs)|);
    out := Flat(vecs)[..n];
    var left;
    left, finished := msg.IovecsWrittenBytes(n, start);
    at := if finished then left else 0;
  }

  lemma OfferedSize(data: Bytes, start: nat)
    requires |data| >= HEADER_SIZE
    ensures
      |Offered(data, start)| ==
        if start < HEADER_SIZE then |data| - start else if start <= |data| + 2 then |data| + 2 - start else 0
  {
  }

  /** Nothing is repeated, whatever is written, exactly from the end of the header to that of the data. */
  lemma RepeatsExactly(data: Bytes, start: nat)
    requires |data| >= HEADER_SIZE
    ensures (forall n :: Repeated(data, start, n) == 0) <==> HEADER_SIZE <= start <= |data|
  {
    OfferedSize(data, start);
    assert start < HEADER_SIZE ==> Repeated(data, start, |data| - start + 1) == 1;
    assert start > |data| ==> Repeated(data, start, 2) > 0;
  }

  // ---------- Whole transfers ----------

  /** One writev: how many pieces it takes, and how many bytes of them are written. */
  datatype Gather = Gather(limit: nat, count: nat)

  predicate HasRoom(g: Gather) { g.limit > 0 && g.count > 0 }

  /** How many writes can take anything. */
  function Roomy(gathers: seq<Gather>): nat {
    if gathers == [] then 0
    else Roomy(gathers[..|gathers| - 1]) + if HasRoom(gathers[|gathers| - 1]) then 1 else 0
  }

  lemma {:induction false} RoomyAll(gathers: seq<Gather>, i: nat)
    requires i <= |gathers|
    ensures Roomy(gathers[..i]) <= Roomy(gathers)
  {
    if i == |gathers| {
      assert gathers[..i] == gathers;
    } else {
      RoomyAll(gathers[..|gathers| - 1], i);
      assert gathers[..|gathers| - 1][..i] == gathers[..i];
    }
  }

  lemma RoomyMore(gathers: seq<Gather>, i: nat)
    requires i < |gathers|
    ensures Roomy(gathers[..i + 1]) == Roomy(gathers[..i]) + if HasRoom(gathers[i]) then 1 else 0
  {
    assert gathers[..i + 1][..i] == gathers[..i];
  }

  /** What is out of the message of the next chunk is nearly all of it: a write has ended one byte
      before its end, and by itself it will never be finished. */
  predicate LastByteLost(rs: seq<Bytes>, part: Bytes) { rs != [] && |part| + 1 >= HEADER_SIZE + |ChunkBytes(rs)| + 2 }

  lemma PayloadFits(trans: Transaction)
    requires trans.Valid()
    ensures trans.Payload() == ChunkBytes(trans.records[trans.first..]) && trans.chunkRemaining <= FILE_CHUNK_SIZE
  {
    hide Fitting, Flat;
    assert |ChunkBytes(trans.records[trans.first..])| <= FILE_CHUNK_SIZE;
  }

  lemma WholeIsMessage(msg: FileServerMessage, trans: Transaction, reqid: U32, count: U32)
    requires msg.For(trans, reqid, count)
    ensures msg.Whole() == Message(reqid, count, trans.records[trans.first..])
    ensures |trans.Chunk()| == NextChunk(trans.records[trans.first..])
  {
    hide Fitting, Flat, Header;
    PayloadFits(trans);
    Assoc(msg.header, trans.Payload(), Padding);
  }

  /** One writev of a message. */
  method Send(msg: FileServerMessage, gather: Gather, start: nat) returns (out: Bytes, finished: bool)
    requires msg.Valid() && start <= |msg.Whole()|
    ensures start + |out| <= |msg.Whole()| && out == msg.Whole()[start..start + |out|]
    ensures finished <==> start <= |msg.Data()| && start + |out| == |msg.Whole()|
    ensures HasRoom(gather) && start < |msg.Whole()| ==> out != []
  {
    hide Flat;
    if gather.limit == 0 {
      return [], false;
    }
    var vecs := msg.FillIovecs(gather.limit, start);
    assert start <= |msg.Data()| ==> msg.Data()[start..] <= msg.Whole()[start..];
    var n := Min(gather.count, |Flat(vecs)|);
    out := Flat(vecs)[..n];
    var left;
    left, finished := msg.IovecsWrittenBytes(n, start);
  }

  /** The client has got the chunk. */
  method Acknowledge(trans: Transaction)
    requires trans.Valid() && !trans.FileComplete() && trans.first < |trans.records|
    modifies trans
    ensures trans.Valid() && trans.first == old(trans.first + NextChunk(trans.records[trans.first..]))
    ensures trans.FileComplete() <==> trans.first == |trans.records|
    ensures trans.records[trans.first..] == old(trans.records[trans.first..][NextChunk(trans.records[trans.first..])..])
  {
    hide Framed, Flat, Fitting;
    OneMore(trans.records, trans.first, |trans.Chunk()|, 0, 0);
    trans.ChunkAcked(trans.first + |trans.Chunk()|);
  }

  lemma NothingSent(reqid: U32, count: U32, rs: seq<Bytes>, gathers: seq<Gather>)
    ensures Stream(reqid, count, rs, 0) == [] && Later(rs, 0) == rs == rs[0..] && gathers[..0] == [] && Roomy([]) == 0
  {
  }

  lemma LostStaysLost(rs: seq<Bytes>, m: Bytes, part: Bytes, out: Bytes)
    requires rs != [] && |m| == HEADER_SIZE + |ChunkBytes(rs)| + 2 && |part| <= |m|
    ensures LastByteLost(rs, part) <==> |part| + 1 >= |m|
    ensures LastByteLost(rs, part) ==> LastByteLost(rs, part + out)
  {
  }

  lemma Finally(reqid: U32, count: U32, rs: seq<Bytes>, chunks: nat, part: Bytes, gathers: seq<Gather>)
    requires Later(rs, chunks) != [] ==> part <= Message(reqid, count, Later(rs, chunks))
    ensures Oversized(rs) ==> Later(rs, chunks) != []
    ensures
      !Oversized(rs) && Later(rs, chunks) != [] ==> |Stream(reqid, count, rs, chunks) + part| <= Most(rs)
  {
    hide Message, Stream, Later, Most;
    OversizedStays(rs, chunks);
    if !Oversized(rs) && Later(rs, chunks) != [] {
      StreamNext(reqid, count, rs, chunks);
      StreamBounded(reqid, count, rs, chunks + 1);
    }
  }

  /** Any run of writes, with an acknowledgement after every finished message: whole messages and the
      start of the next.  Every write that has room takes something, unless the last byte of a message
      is lost; all is done exactly when no records are left, which never happens if one is too long. */
  method Transfer(file: Bytes, reqid: U32, count: U32, ghost records: seq<Bytes>, gathers: seq<Gather>)
    returns (sent: Bytes, done: bool, ghost chunks: nat, ghost part: Bytes)
    requires RecordsOk(records) && file == Le32(count) + Framed(records)
    ensures sent == Stream(reqid, count, records, chunks) + part
    ensures done <==> Later(records, chunks) == []
    ensures if done then part == [] else part <= Message(reqid, count, Later(records, chunks))
    ensures done || LastByteLost(Later(records, chunks), part) || |sent| >= Roomy(gathers)
    ensures Oversized(records) ==> !done
    ensures !Oversized(records) && Roomy(gathers) > Most(records) ==> done || LastByteLost(Later(records, chunks), part)
  {
    hide Le32, Framed, Flat, Fitting, Stream, Message, Later, Roomy, Oversized, LastByteLost, Header, NextChunk,
        RecordsOk,
      HasRoom;
    var trans := new Transaction(file, count, records);
    var msg: FileServerMessage? := null;
    sent, part, chunks := [], [], 0;
    var start: nat := 0;
    NothingSent(reqid, count, records, gathers);
    for i := 0 to |gathers|
      invariant trans.Valid() && trans.records == records && trans.file == file && fresh(trans)
      invariant (trans.FileComplete() <==> trans.first == |records|) && Later(records, chunks) == records[trans.first..]
      invariant sent == Stream(reqid, count, records, chunks) + part && |part| == start
      invariant msg != null ==> !trans.FileComplete() && msg.For(trans, reqid, count)
      invariant if trans.FileComplete() then part == []
                else start <= |Message(reqid, count, records[trans.first..])|
                     && part == Message(reqid, count, records[trans.first..])[..start]
      invariant msg == null ==> start == 0
      invariant trans.FileComplete() || LastByteLost(records[trans.first..], part) || |sent| >= Roomy(gathers[..i])
    {
      if trans.FileComplete() {
        break;
      }
      RoomyMore(gathers, i);
      if msg == null {
        PayloadFits(trans);
        msg := new FileServerMessage(trans, reqid, count);
      }
      WholeIsMessage(msg, trans, reqid, count);
      ghost var rest := records[trans.first..];
      ghost var m := Message(reqid, count, rest);
      var out, finished := Send(msg, gathers[i], start);
      LostStaysLost(rest, m, part, out);
      assert part + out == m[..start + |out|];
      Assoc(Stream(reqid, count, records, chunks), part, out);
      sent, part, start := sent + out, part + out, start + |out|;
      if finished {
        assert part == m;
        StreamNext(reqid, count, records, chunks);
        Acknowledge(trans);
        msg, part, chunks, start := null, [], chunks + 1, 0;
      }
    }
    assert gathers[..|gathers|] == gathers;
    done := trans.FileComplete();
    Finally(reqid, count, records, chunks, part, gathers);
  }
}

/** Messages that can be written in slices: every writer is told how much of its message is out
    already and fills a buffer, or hands out pieces, from there. */
module Writers {
  import opened Wire

  /** A field of a backend message; single ones are written by the one-byte macro. */
  datatype Field = Field(bytes: Bytes, single: bool)

  predicate FieldsOk(fields: seq<Field>) {
    && (forall i | 0 <= i < |fields| && fields[i].single :: |fields[i].bytes| == 1)
    && (fields != [] ==> !fields[0].single)
  }

  function FieldBytes(fields: seq<Field>): (b: seq<Bytes>)
    ensures |b| == |fields|
  {
    seq(|fields|, i requires 0 <= i < |fields| => fields[i].bytes)
  }

  datatype Message =
    | Nonce(body: Bytes)                                 // NonceResponse
    | Plain(body: Bytes)                                 // AuthPingMessage, SharedGameMessage
    | Auth(mtype: Byte, body: Bytes)                     // AuthServerMessage
    | AgeReply(top: Bytes, body: Bytes)                  // AuthServerAgeReplyMessage
    | JoinReply(jtype: U16, reqid: U32, result: U32)     // GameJoinReply
    | Backend(header: Bytes, fields: seq<Field>)         // BackendMessage
    | Passthrough(inner: Bytes, fields: seq<Field>)      // AuthServerVaultMessage, with its header

  /** Sizes the constructors guarantee. */
  predicate MessageOk(m: Message) {
    match m
    case Backend(header, fields) => |header| == 16 && FieldsOk(fields)
    case Passthrough(inner, fields) => |inner| == 16 && FieldsOk(fields)
    case AgeReply(top, _) => |top| == 10
    case _ => true
  }

  /** message_len says how long the message is.  An age reply's is a constant. */
  predicate LengthTrue(m: Message) { m.AgeReply? ==> |m.body| == 28 }

  /** The bytes a message stands for. */
  function Encoding(m: Message): Bytes {
    match m
    case Nonce(body) => body
    case Plain(body) => body
    case Auth(mtype, body) => [mtype, 0] + body
    case AgeReply(top, body) => top + body
    case JoinReply(jtype, reqid, result) => Le16(jtype) + (Le32(reqid) + Le32(result))
    case Backend(header, fields) => header + Flat(FieldBytes(fields))
    case Passthrough(_, fields) => Flat(FieldBytes(fields))
  }

  // ---------- Lists of pieces ----------

  /** What is still to come, at position pos of the i-th piece. */
  function Rest(segs: seq<Bytes>, i: nat, pos: nat): Bytes
    requires i <= |segs| && pos <= |Flat(segs[i..])|
  {
    Flat(segs[i..])[pos..]
  }

  /** w bytes of the i-th piece come next, or the piece is behind us. */
  lemma Cut(segs: seq<Bytes>, i: nat, pos: nat, w: nat)
    requires i < |segs| && pos <= |Flat(segs[i..])|
    ensures pos + w <= |segs[i]| ==>
              Rest(segs, i, pos) == segs[i][pos..pos + w] + (segs[i][pos + w..] + Rest(segs, i + 1, 0))
    ensures pos >= |segs[i]| ==>
              pos - |segs[i]| <= |Flat(segs[i + 1..])| && Rest(segs, i, pos) == Rest(segs, i + 1, pos - |segs[i]|)
  {
    assert segs[i..][0] == segs[i] && segs[i..][1..] == segs[i + 1..];
  }

  ghost predicate FilledFrom(now: Bytes, was: Bytes, at: nat, whole: Bytes, start: nat, n: nat) {
    start + n <= |whole| && Wrote(now, was, at, whole[start..start + n])
  }

  lemma FilledNothing(was: Bytes, at: nat, whole: Bytes, start: nat)
    requires at <= |was| && start <= |whole|
    ensures FilledFrom(was, was, at, whole, start, 0)
  {
    assert whole[start..start] == [];
  }

  lemma FilledThen(was: Bytes, mid: Bytes, now: Bytes, at: nat, whole: Bytes, start: nat, n: nat, y: Bytes)
    requires FilledFrom(mid, was, at, whole, start, n) && Wrote(now, mid, at + n, y)
    requires start + n + |y| <= |whole| && y == whole[start + n..start + n + |y|]
    ensures FilledFrom(now, was, at, whole, start, n + |y|)
  {
    SlicesJoin(whole, start, start + n, start + n + |y|);
    WroteMore(was, mid, now, at, whole[start..start + n], y);
  }

  /** The next few bytes of the whole. */
  method Emit(y: Bytes, buf: array<Byte>, off: nat, ghost was: Bytes, ghost at: nat,
              ghost whole: Bytes, ghost start: nat, ghost n: nat)
    requires FilledFrom(buf[..], was, at, whole, start, n) && off == at + n && off + |y| <= buf.Length
    requires start + n + |y| <= |whole| && y == whole[start + n..start + n + |y|]
    modifies buf
    ensures FilledFrom(buf[..], was, at, whole, start, n + |y|)
  {
    ghost var mid := buf[..];
    Put(buf, off, y);
    FilledThen(was, mid, buf[..], at, whole, start, n, y);
  }

  /** x is out, and the next byte is at position pos of the i-th piece. */
  ghost predicate Midway(now: Bytes, was: Bytes, at: nat, segs: seq<Bytes>, start: nat, x: Bytes, i: nat, pos: nat) {
    && start + |x| <= |Flat(segs)| && i <= |segs| && pos <= |Flat(segs[i..])|
    && Flat(segs)[start..] == x + Rest(segs, i, pos)
    && Wrote(now, was, at, x)
  }

  lemma MidwayFilled(now: Bytes, was: Bytes, at: nat, segs: seq<Bytes>, start: nat, x: Bytes, i: nat, pos: nat)
    requires Midway(now, was, at, segs, start, x, i, pos)
    ensures FilledFrom(now, was, at, Flat(segs), start, |x|)
    ensures i == |segs| ==> start + |x| == |Flat(segs)|
  {
    assert Flat(segs)[start..][..|x|] == x;
    if i == |segs| {
      assert segs[i..] == [];
    }
  }

  lemma MidwayStarts(was: Bytes, at: nat, segs: seq<Bytes>, start: nat)
    requires at <= |was| && start <= |Flat(segs)|
    ensures Midway(was, was, at, segs, start, [], 0, start)
  {
    assert segs[0..] == segs;
  }

  lemma MidwaySkips(now: Bytes, was: Bytes, at: nat, segs: seq<Bytes>, start: nat, x: Bytes, i: nat, pos: nat)
    requires Midway(now, was, at, segs, start, x, i, pos) && i < |segs| && pos >= |segs[i]|
    ensures Midway(now, was, at, segs, start, x, i + 1, pos - |segs[i]|)
  {
    Cut(segs, i, pos, 0);
  }

  /** As much of the i-th piece as there is room for. */
  method CopyPiece(seg: Bytes, ghost segs: seq<Bytes>, ghost i: nat, pos: nat, buf: array<Byte>, off: nat, room: nat,
                   ghost was: Bytes, ghost at: nat, ghost start: nat, ghost x: Bytes)
    returns (n: nat)
    requires Midway(buf[..], was, at, segs, start, x, i, pos) && i < |segs| && seg == segs[i] && pos < |seg|
    requires off == at + |x| && off + room <= buf.Length
    modifies buf
    ensures n == Min(room, |seg| - pos)
    ensures FilledFrom(buf[..], was, at, Flat(segs), start, |x| + n)
    ensures n < |seg| - pos ==> start + |x| + n < |Flat(segs)|
    ensures n == |seg| - pos ==> Midway(buf[..], was, at, segs, start, x + seg[pos..pos + n], i + 1, 0)
  {
    hide Rest;
    n := Min(room, |seg| - pos);
    ghost var piece, tail := seg[pos..pos + n], seg[pos + n..] + Rest(segs, i + 1, 0);
    Append(buf, off, seg[pos..pos + n], was, at, x);
    Cut(segs, i, pos, n);
    Assoc(x, piece, tail);
    assert Flat(segs)[start..][..|x + piece|] == x + piece;
    if n == |seg| - pos {
      assert tail == Rest(segs, i + 1, 0);
    }
  }

  /** GameMgr_Marker_MarkerAdded_Message::fill_buffer, for any list of pieces: done exactly when
      the last byte is out. */
  method FillPieces(segs: seq<Bytes>, buf: array<Byte>, at: nat, len: nat, start: nat) returns (n: nat, done: bool)
    requires at + len <= buf.Length && start <= |Flat(segs)|
    modifies buf
    ensures n == Min(len, |Flat(segs)| - start)
    ensures FilledFrom(buf[..], old(buf[..]), at, Flat(segs), start, n)
    ensures done <==> start + n == |Flat(segs)|
  {
    hide Midway, FilledFrom;
    ghost var was, x: Bytes := buf[..], [];
    MidwayStarts(was, at, segs, start);
    var pos := start;
    n := 0;
    for i := 0 to |segs|
      invariant n == |x| <= len && (pos > 0 ==> n == 0) && pos >= 0
      invariant Midway(buf[..], was, at, segs, start, x, i, pos)
    {
      if pos < |segs[i]| {
        var wlen := CopyPiece(segs[i], segs, i, pos, buf, at + n, len - n, was, at, start, x);
        n := n + wlen;
        if wlen < |segs[i]| - pos {
          return n, false;
        }
        x, pos := x + segs[i][pos..pos + wlen], 0;
      } else {
        MidwaySkips(buf[..], was, at, segs, start, x, i, pos);
        pos := pos - |segs[i]|;
      }
    }
    MidwayFilled(buf[..], was, at, segs, start, x, |segs|, pos);
    done := true;
  }

  // ---------- Backend messages: the WRITE_ macros ----------

  /** fill_type into a buffer.  Every macro but the last field's gives up as soon as the buffer is
      full, and a single byte as last field is written without reporting completion. */
  method FillType(fields: seq<Field>, buf: array<Byte>, at: nat, cap: nat, start: nat) returns (n: nat, done: bool)
    requires FieldsOk(fields) && at + cap <= buf.Length && start <= |Flat(FieldBytes(fields))|
    modifies buf
    ensures n == Min(cap, |Flat(FieldBytes(fields))| - start)
    ensures FilledFrom(buf[..], old(buf[..]), at, Flat(FieldBytes(fields)), start, n)
    ensures done ==> start + n == |Flat(FieldBytes(fields))|
    ensures Flat(FieldBytes(fields)) == [] && cap == 0 ==> (done <==> |fields| <= 1)
    ensures !done ==> n == cap || (fields != [] && fields[|fields| - 1].single && n > 0
                                   && start + n == |Flat(FieldBytes(fields))|)
  {
    hide Midway, FilledFrom;
    ghost var segs := FieldBytes(fields);
    assert segs != [] ==> |segs[0]| <= |Flat(segs)|;
    ghost var was, x: Bytes := buf[..], [];
    MidwayStarts(was, at, segs, start);
    var pos := start;
    n := 0;
    for i := 0 to |fields|
      invariant n == |x| <= cap && pos >= 0 && (pos > 0 ==> n == 0) && (0 < i < |fields| ==> n < cap)
      invariant i > 0 && cap == 0 ==> |fields| == 1
      invariant Midway(buf[..], was, at, segs, start, x, i, pos)
    {
      var seg, last := fields[i].bytes, i == |fields| - 1;
      if pos < |seg| {
        var room := if fields[i].single then 1 else cap - n;
        var wlen := CopyPiece(seg, segs, i, pos, buf, at + n, room, was, at, start, x);
        n := n + wlen;
        if wlen == |seg| - pos {
          MidwayFilled(buf[..], was, at, segs, start, x + seg[pos..pos + wlen], i + 1, 0);
        }
        if (last && (fields[i].single || wlen < |seg| - pos)) || (!last && n >= cap) {
          return n, false;
        }
        x, pos := x + seg[pos..pos + wlen], 0;
      } else {
        MidwaySkips(buf[..], was, at, segs, start, x, i, pos);
        pos := pos - |seg|;
        if !last && n >= cap {
          MidwayFilled(buf[..], was, at, segs, start, x, i + 1, pos);
          return n, false;
        }
      }
    }
    MidwayFilled(buf[..], was, at, segs, start, x, |segs|, pos);
    done := true;
  }

  /** How many bytes BackendMessage::fill_buffer produces.  It stops early when the bytes out so
      far and those of the header together equal the size of the buffer. */
  function BackendCount(total: nat, len: nat, start: nat): nat
    requires start <= total
  {
    var head := if start < 16 then Min(len, 16 - start) else 0;
    if total - start <= head then total - start
    else if start + head == len then head
    else Min(len, total - start)
  }

  /** It is stuck on exactly one buffer size for every position after the header. */
  lemma BackendStalls(total: nat, len: nat, start: nat)
    requires start < total && 0 < len
    ensures BackendCount(total, len, start) == 0 <==> start >= 16 && start == len
  {
  }

  /** It writes less than there is room for exactly if it resumes inside the header of a longer message with
      a buffer of the header's size, or behind it with one as large as what is out already. */
  lemma BackendShort(total: nat, len: nat, start: nat)
    requires 16 <= total && start <= total
    ensures BackendCount(total, len, start)
            == if 0 < start < 16 && len == 16 && total > 16 then 16 - start
               else if start >= 16 && len == start then 0
               else Min(len, total - start)
  {
  }

  /** Messages whose writers use all the room they are given. */
  predicate Prompt(m: Message) { !m.Backend? && !m.Passthrough? }

  /** A resumed header that does not fit the buffer, with nothing to follow it: the writer for the
      (empty) rest is called all the same and reports completion. */
  predicate HeaderCutShort(fields: seq<Field>, len: nat, start: nat) {
    Flat(FieldBytes(fields)) == [] && |fields| <= 1 && 0 < start && start + len < 16
  }

  /** What every writer promises. */
  ghost predicate FillOk(m: Message, len: nat, start: nat, n: nat, done: bool) {
    var total := |Encoding(m)|;
    && n <= len && start + n <= total
    && (start == total ==> done)
    && (done && start + n < total <==> m.Backend? && HeaderCutShort(m.fields, len, start))
    && (Prompt(m) ==> n == Min(len, total - start) && (!done ==> n == len))
    && (m.Backend? ==> n == BackendCount(total, len, start))
    && (m.Passthrough? ==> n == BackendCount(total + 16, len, start + 16))
    && (m.Nonce? || m.Plain? || m.JoinReply? ==> (done <==> start + n == total))
    && (m.AgeReply? ==> (done <==> start + n == total && (m.body != [] || start >= 10 || n < len)))
    && (m.Auth? ==> (done <==> start + n == total && (m.body != [] || start >= 2 || n < len)))
  }

  method FillNonce(body: Bytes, buf: array<Byte>, at: nat, len: nat, start: nat) returns (n: nat, done: bool)
    requires at + len <= buf.Length && start <= |body| && len > 0
    modifies buf
    ensures FillOk(Nonce(body), len, start, n, done)
    ensures FilledFrom(buf[..], old(buf[..]), at, body, start, n)
  {
    if start >= |body| {
      FilledNothing(buf[..], at, body, start);
      return 0, true;
    }
    n := |body| - start;
    if len < n {
      n, done := len, false;
    } else {
      done := true;
    }
    Put(buf, at, body[start..start + n]);
  }

  /** AuthPingMessage and SharedGameMessage. */
  method FillPlain(body: Bytes, buf: array<Byte>, at: nat, len: nat, start: nat) returns (n: nat, done: bool)
    requires at + len <= buf.Length && start <= |body|
    modifies buf
    ensures FillOk(Plain(body), len, start, n, done)
    ensures FilledFrom(buf[..], old(buf[..]), at, body, start, n)
  {
    hide FilledFrom;
    ghost var was := buf[..];
    FilledNothing(was, at, body, start);
    if |body| - start <= len {
      Emit(body[start..], buf, at, was, at, body, start, 0);
      n, done := |body| - start, true;
    } else {
      Emit(body[start..start + len], buf, at, was, at, body, start, 0);
      n, done := len, false;
    }
  }

  /** A message that stops after its two type bytes for lack of room is not called done, even
      when nothing follows them. */
  method FillAuth(mtype: Byte, body: Bytes, buf: array<Byte>, at: nat, len: nat, start: nat)
    returns (n: nat, done: bool)
    requires at + len <= buf.Length && start <= |body| + 2 && len > 0
    modifies buf
    ensures FillOk(Auth(mtype, body), len, start, n, done)
    ensures FilledFrom(buf[..], old(buf[..]), at, Encoding(Auth(mtype, body)), start, n)
  {
    hide FilledFrom;
    ghost var was, enc := buf[..], [mtype, 0] + body;
    FilledNothing(was, at, enc, start);
    n, done := 0, false;
    if start == 0 && len > n {
      Emit([mtype], buf, at, was, at, enc, start, 0);
      n := 1;
    }
    if start + n < 2 && len > n {
      Emit([0], buf, at + n, was, at, enc, start, n);
      n := n + 1;
    }
    if len > n {
      var from := start + n - 2;
      var count := |body| - from;
      if len - n < count {
        count := len - n;
      } else {
        done := true;
      }
      Emit(body[from..from + count], buf, at + n, was, at, enc, start, n);
      n := n + count;
    }
  }

  method FillAgeReply(top: Bytes, body: Bytes, buf: array<Byte>, at: nat, len: nat, start: nat)
    returns (n: nat, done: bool)
    requires at + len <= buf.Length && |top| == 10 && start <= 10 + |body| && len > 0
    modifies buf
    ensures FillOk(AgeReply(top, body), len, start, n, done)
    ensures FilledFrom(buf[..], old(buf[..]), at, top + body, start, n)
  {
    hide FilledFrom;
    ghost var was, enc := buf[..], top + body;
    FilledNothing(was, at, enc, start);
    n, done := 0, false;
    if start < 10 {
      n := Min(10 - start, len);
      Emit(top[start..start + n], buf, at, was, at, enc, start, 0);
    }
    if len > n {
      var from := start + n - 10;
      var count := |body| - from;
      if len - n < count {
        count := len - n;
      } else {
        done := true;
      }
      SliceOfTail(top, body, start + n, start + n + count);
      Emit(body[from..from + count], buf, at + n, was, at, enc, start, n);
      n := n + count;
    }
  }

  method FillJoinReply(jtype: U16, reqid: U32, result: U32, buf: array<Byte>, at: nat, len: nat, start: nat)
    returns (n: nat, done: bool)
    requires at + len <= buf.Length && start <= 10 && len > 0
    modifies buf
    ensures FillOk(JoinReply(jtype, reqid, result), len, start, n, done)
    ensures FilledFrom(buf[..], old(buf[..]), at, Encoding(JoinReply(jtype, reqid, result)), start, n)
  {
    hide FilledFrom, Le32;
    var tmp := Le32(reqid) + Le32(result);
    ghost var was, enc := buf[..], Le16(jtype) + tmp;
    FilledNothing(was, at, enc, start);
    n := 0;
    var pos := 0;
    if start < 2 {
      if start == 0 {
        if len < 2 {
          Emit([jtype % 0x100], buf, at, was, at, enc, 0, 0);
          return 1, false;
        }
        Emit(Le16(jtype), buf, at, was, at, enc, 0, 0);
        n := 2;
      } else {
        Emit([jtype / 0x100], buf, at, was, at, enc, 1, 0);
        n := 1;
      }
    } else {
      pos := start - 2;
    }
    var wlen := 8 - pos;
    if len - n < wlen {
      wlen, done := len - n, false;
    } else {
      done := true;
    }
    assert enc[2..] == tmp;
    Emit(tmp[pos..pos + wlen], buf, at + n, was, at, enc, start, n);
    n := n + wlen;
  }

  /** BackendMessage::fill_buffer: completion is reported too early exactly in that case. */
  method FillBackend(header: Bytes, fields: seq<Field>, buf: array<Byte>, at: nat, len: nat, start: nat)
    returns (n: nat, done: bool)
    requires |header| == 16 && FieldsOk(fields) && at + len <= buf.Length
    requires start <= 16 + |Flat(FieldBytes(fields))|
    modifies buf
    ensures n == BackendCount(16 + |Flat(FieldBytes(fields))|, len, start)
    ensures FilledFrom(buf[..], old(buf[..]), at, header + Flat(FieldBytes(fields)), start, n)
    ensures start == 16 + |Flat(FieldBytes(fields))| ==> done
    ensures done && start + n < 16 + |Flat(FieldBytes(fields))| <==> HeaderCutShort(fields, len, start)
  {
    hide FilledFrom, Flat, FieldBytes, FieldsOk, TotalLength;
    ghost var was, body := buf[..], Flat(FieldBytes(fields));
    ghost var enc := header + body;
    FilledNothing(was, at, enc, start);
    var total := 16 + TotalLength(fields);
    n := 0;
    if start < 16 {
      n := Min(len, 16 - start);
      Emit(header[start..start + n], buf, at, was, at, enc, start, 0);
    }
    if total - start <= n {
      return n, true;
    }
    if start + n == len {
      return n, false;
    }
    var pos := if start > 16 then start - 16 else 0;
    ghost var mid := buf[..];
    var more;
    more, done := FillType(fields, buf, at + n, len - n, pos);
    FilledOn(was, mid, buf[..], at, header, body, start, n, pos, more);
    n := n + more;
  }

  /** Going on from a whole header, or not going on at all. */
  lemma FilledOn(was: Bytes, mid: Bytes, now: Bytes, at: nat, header: Bytes, body: Bytes,
                 start: nat, n: nat, pos: nat, more: nat)
    requires FilledFrom(mid, was, at, header + body, start, n) && FilledFrom(now, mid, at + n, body, pos, more)
    requires more > 0 ==> start + n == |header| + pos
    ensures FilledFrom(now, was, at, header + body, start, n + more)
  {
    var enc := header + body;
    if more > 0 {
      SliceOfTail(header, body, start + n, start + n + more);
      SlicesJoin(enc, start, start + n, start + n + more);
    } else {
      assert enc[start..start + n] + body[pos..pos + more] == enc[start..start + n];
    }
    WroteMore(was, mid, now, at, enc[start..start + n], body[pos..pos + more]);
  }

  /** message_len without the header */
  function TotalLength(fields: seq<Field>): (n: nat)
    ensures n == |Flat(FieldBytes(fields))|
  {
    if fields == [] then 0
    else
      assert FieldBytes(fields)[1..] == FieldBytes(fields[1..]);
      |fields[0].bytes| + TotalLength(fields[1..])
  }

  lemma FilledTail(now: Bytes, was: Bytes, at: nat, header: Bytes, body: Bytes, start: nat, n: nat)
    requires FilledFrom(now, was, at, header + body, |header| + start, n)
    ensures FilledFrom(now, was, at, body, start, n)
  {
    assert (header + body)[|header| + start..|header| + start + n] == body[start..start + n];
  }

  /** fill_buffer of any message: the slice of its encoding from start, as long as FillOk says. */
  method Fill(m: Message, buf: array<Byte>, at: nat, len: nat, start: nat) returns (n: nat, done: bool)
    requires MessageOk(m) && at + len <= buf.Length && start <= |Encoding(m)| && len > 0
    modifies buf
    ensures FillOk(m, len, start, n, done)
    ensures FilledFrom(buf[..], old(buf[..]), at, Encoding(m), start, n)
  {
    hide FilledFrom;
    match m
    case Nonce(body) => n, done := FillNonce(body, buf, at, len, start);
    case Plain(body) => n, done := FillPlain(body, buf, at, len, start);
    case Auth(mtype, body) => n, done := FillAuth(mtype, body, buf, at, len, start);
    case AgeReply(top, body) => n, done := FillAgeReply(top, body, buf, at, len, start);
    case JoinReply(jtype, reqid, result) => n, done := FillJoinReply(jtype, reqid, result, buf, at, len, start);
    case Backend(header, fields) => n, done := FillBackend(header, fields, buf, at, len, start);
    case Passthrough(inner, fields) =>
      ghost var was := buf[..];
      n, done := FillBackend(inner, fields, buf, at, len, start + 16);
      FilledTail(buf[..], was, at, inner, Encoding(m), start, n);
  }

  // ---------- Pieces for writev ----------

  /** The pieces are what comes next, and only a full list may leave something out. */
  ghost predicate VecsOk(vecs: seq<Bytes>, limit: nat, rest: Bytes) {
    |vecs| <= limit && Flat(vecs) <= rest && (|vecs| < limit ==> Flat(vecs) == rest)
  }

  lemma VecsMore(vecs: seq<Bytes>, v: Bytes)
    ensures Flat(vecs + [v]) == Flat(vecs) + v
  {
    FlatAppend(vecs, [v]);
    assert [v][1..] == [] && Flat([v]) == v;
  }

  /** fill_type for writev, also without the check that the list has room for a first piece. */
  method VecsOfFields(fields: seq<Field>, limit: nat, start: nat) returns (vecs: seq<Bytes>)
    requires limit > 0 && start <= |Flat(FieldBytes(fields))|
    ensures VecsOk(vecs, limit, Flat(FieldBytes(fields))[start..]) && |vecs| <= |fields|
  {
    hide Rest, Flat;
    ghost var segs := FieldBytes(fields);
    ghost var whole := Flat(segs)[start..];
    StartsAtFront(segs, start);
    FlatOfNone();
    vecs := [];
    var pos := start;
    for i := 0 to |fields|
      invariant |vecs| <= limit && |vecs| <= i && (i < |fields| ==> |vecs| < limit)
      invariant 0 <= pos <= |Flat(segs[i..])| && whole == Flat(vecs) + Rest(segs, i, pos)
    {
      var seg := fields[i].bytes;
      NextPiece(segs, i, pos, vecs);
      if pos < |seg| {
        vecs, pos := vecs + [seg[pos..]], 0;
      } else {
        pos := pos - |seg|;
      }
      if i < |fields| - 1 && |vecs| >= limit {
        return;
      }
    }
    NoRest(segs);
  }

  lemma FlatOfNone()
    ensures Flat([]) == []
  {
  }

  /** BackendMessage::fill_iovecs */
  method VecsOfBackend(header: Bytes, fields: seq<Field>, limit: nat, start: nat) returns (vecs: seq<Bytes>)
    requires |header| == 16 && limit > 0 && start <= 16 + |Flat(FieldBytes(fields))|
    ensures VecsOk(vecs, limit, (header + Flat(FieldBytes(fields)))[start..])
    ensures |vecs| <= |fields| + if start < 16 then 1 else 0
  {
    ghost var body := Flat(FieldBytes(fields));
    if start >= 16 {
      vecs := VecsOfFields(fields, limit, start - 16);
      assert (header + body)[start..] == body[start - 16..];
      return;
    }
    vecs := [header[start..]];
    assert vecs[1..] == [] && Flat(vecs) == header[start..];
    assert (header + body)[start..] == header[start..] + body;
    if limit == 1 {
      return;
    }
    var more := VecsOfFields(fields, limit - 1, 0);
    FlatAppend(vecs, more);
    vecs := vecs + more;
  }

  /** Position pos of the j-th piece: it is behind us, or the rest of it is handed out next. */
  lemma NextPiece(segs: seq<Bytes>, j: nat, pos: nat, vecs: seq<Bytes>)
    requires j < |segs| && pos <= |Flat(segs[j..])|
    ensures pos >= |segs[j]| ==>
              pos - |segs[j]| <= |Flat(segs[j + 1..])| && Rest(segs, j, pos) == Rest(segs, j + 1, pos - |segs[j]|)
    ensures pos < |segs[j]| ==>
              Flat(vecs) + Rest(segs, j, pos) == Flat(vecs + [segs[j][pos..]]) + Rest(segs, j + 1, 0)
  {
    hide Rest, Flat;
    if pos < |segs[j]| {
      Cut(segs, j, pos, |segs[j]| - pos);
      VecsMore(vecs, segs[j][pos..]);
      Assoc(Flat(vecs), segs[j][pos..], Rest(segs, j + 1, 0));
    } else {
      Cut(segs, j, pos, 0);
    }
  }

  lemma StartsAtFront(segs: seq<Bytes>, start: nat)
    requires start <= |Flat(segs)|
    ensures segs[0..] == segs && Rest(segs, 0, start) == Flat(segs)[start..]
  {
    assert segs[0..] == segs;
  }

  lemma NoRest(segs: seq<Bytes>)
    ensures segs[|segs|..] == [] && Flat(segs[|segs|..]) == [] && Rest(segs, |segs|, 0) == []
  {
  }

  /** AuthServerMessage::fill_iovecs: the type bytes are pieces of their own. */
  method VecsOfAuth(mtype: Byte, body: Bytes, limit: nat, start: nat) returns (vecs: seq<Bytes>)
    requires limit > 0 && start <= 2 + |body|
    ensures VecsOk(vecs, limit, ([mtype, 0] + body)[start..]) && |vecs| <= 3
  {
    ghost var enc := [mtype, 0] + body;
    vecs := [];
    var pos := start;
    if pos == 0 {
      VecsMore(vecs, [mtype]);
      vecs, pos := vecs + [[mtype]], 1;
    }
    if |vecs| < limit && pos < 2 {
      VecsMore(vecs, [0]);
      vecs, pos := vecs + [[0]], 2;
    }
    assert Flat(vecs) == enc[start..pos];
    if |vecs| < limit {
      VecsMore(vecs, body[pos - 2..]);
      vecs := vecs + [body[pos - 2..]];
      assert enc[start..] == enc[start..pos] + body[pos - 2..];
    }
  }

  /** No message has more pieces. */
  function MaxPieces(m: Message): nat {
    match m
    case Auth(_, _) => 3
    case AgeReply(_, _) => 2
    case Backend(_, fields) => 1 + |fields|
    case Passthrough(_, fields) => |fields|
    case _ => 1
  }

  /** fill_iovecs of any message. */
  method Vecs(m: Message, limit: nat, start: nat) returns (vecs: seq<Bytes>)
    requires MessageOk(m) && limit > 0 && start <= |Encoding(m)|
    ensures VecsOk(vecs, limit, Encoding(m)[start..]) && |vecs| <= MaxPieces(m)
  {
    ghost var rest := Encoding(m)[start..];
    match m
    case Nonce(body) =>
      vecs := if start >= |body| then [] else [body[start..]];
      assert vecs != [] ==> vecs[1..] == [];
    case Plain(body) =>
      vecs := [body[start..]];
      assert vecs[1..] == [];
    case Auth(mtype, body) => vecs := VecsOfAuth(mtype, body, limit, start);
    case AgeReply(top, body) =>
      vecs := [];
      var pos := start;
      if pos < 10 {
        VecsMore(vecs, top[pos..]);
        vecs, pos := [top[pos..]], 0;
      } else {
        pos := pos - 10;
      }
      if |vecs| < limit {
        VecsMore(vecs, body[pos..]);
        vecs := vecs + [body[pos..]];
        assert Flat(vecs) == rest;
      }
    case JoinReply(_, _, _) =>
      vecs := [Encoding(m)[start..]];
      assert vecs[1..] == [];
    case Backend(header, fields) => vecs := VecsOfBackend(header, fields, limit, start);
    case Passthrough(inner, fields) =>
      vecs := VecsOfBackend(inner, fields, limit, start + 16);
      assert (inner + Encoding(m))[start + 16..] == Encoding(m)[start..];
  }

  function MessageLen(m: Message): (n: nat)
    requires MessageOk(m)
    ensures n == |Encoding(m)| <==> LengthTrue(m)
  {
    match m
    case Nonce(body) => |body|
    case Plain(body) => |body|
    case Auth(_, body) => |body| + 2
    case AgeReply(_, _) => 38
    case JoinReply(_, _, _) => 10
    case Backend(_, fields) => 16 + TotalLength(fields)
    case Passthrough(_, fields) => 16 + TotalLength(fields) - 16
  }

  /** iovecs_written_bytes: whether the message is finished, and how many bytes are not its own. */
  method WrittenBytes(m: Message, count: nat, start: nat) returns (left: nat, done: bool)
    requires MessageOk(m) && LengthTrue(m) && start <= |Encoding(m)|
    ensures done <==> start + count >= |Encoding(m)|
    ensures left == if done then start + count - |Encoding(m)| else 0
  {
    if start + count < MessageLen(m) {
      left, done := 0, false;
    } else {
      left, done := start + count - MessageLen(m), true;
    }
  }
}

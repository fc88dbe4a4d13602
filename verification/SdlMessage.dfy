/** A whole SDL message: the object's key, a length header with optional compression, the
    description's name and version, and the state (read_msg, write_msg, read_in, write_out). */
module SdlMessage {
  import opened Wire
  import opened PlKeys
  import opened SdlModel
  import opened SdlRoundTrip
  import opened SdlWriter

  const COMPRESSION_NONE: Byte := 0
  const COMPRESSION_FAILED: Byte := 1
  const COMPRESSION_ZLIB: Byte := 2
  const COMPRESS_THRESHOLD := 256
  const NO_PL_TYPE: U16 := 0x8000

  /** zlib, as far as it is used here: compressing may fail, uncompressing is given a size limit. */
  datatype Zlib = Zlib(compress: Bytes -> Option<Bytes>, uncompress: (Bytes, nat) -> Option<Bytes>) {
    ghost predicate Inverse() {
      forall x: Bytes, n: nat :: compress(x).Some? && |x| <= n ==> uncompress(compress(x).value, n) == Some(x)
    }
  }

  // ---------- Looking a description up ----------

  function Lower(b: Byte): Byte { if 65 <= b <= 90 then b + 32 else b }

  predicate SameName(a: Bytes, b: Bytes) {
    |a| == |b| && forall i | 0 <= i < |a| :: Lower(a[i]) == Lower(b[i])
  }

  /** With a version the first match, without one the newest. */
  function FindByName(descs: seq<Desc>, name: Bytes, version: U16): Option<Desc> {
    if descs == [] then None
    else
      var later := FindByName(descs[1..], name, version);
      if !SameName(descs[0].name, name) then later
      else if version != 0 then (if descs[0].version == version then Some(descs[0]) else later)
      else if later.Some? && descs[0].version < later.value.version then later
      else Some(descs[0])
  }

  /** The description is what its own name and version find. */
  predicate Known(descs: seq<Desc>, d: Desc) {
    NameOk(d.name) && CStr(d.name) == d.name && FindByName(descs, d.name, d.version) == Some(d)
  }

  // ---------- Bodies ----------

  function EncBody(d: Desc, s: State): Bytes
    requires StateOk(d, s) && NameOk(d.name)
  {
    EncName(d.name) + (Le16(d.version) + EncState(d, s))
  }

  /** read_in */
  function TakeBody(descs: seq<Desc>, bs: Bytes): Parsed<(Desc, State)> {
    var (name, bs) :- TakeName(bs);
    var (version, bs) :- Take16(bs);
    var found := FindByName(descs, CStr(name), version);
    if found.None? then Fail(UnknownSdl)
    else
      var (s, bs) :- TakeState(found.value, bs);
      Ok((found.value, s), bs)
  }

  lemma BodyRoundTrip(descs: seq<Desc>, d: Desc, s: State, rest: Bytes)
    requires StateOk(d, s) && Sendable(d, s) && Known(descs, d)
    ensures TakeBody(descs, EncBody(d, s) + rest) == Ok((d, StateSent(s)), rest)
  {
    hide EncState, TakeState, StateOk, Sendable, FindByName;
    var tail := EncState(d, s) + rest;
    Assoc(Le16(d.version), EncState(d, s), rest);
    Assoc(EncName(d.name), Le16(d.version) + EncState(d, s), rest);
    NameRoundTrip(d.name, Le16(d.version) + tail);
    Take16Le16(d.version, tail);
    StateRoundTrip(d, s, rest);
  }

  // ---------- Messages ----------

  /** The eleven bytes between key and body; the length counts the last two of them. */
  function Header(uncompressed: nat, kind: Byte, payload: nat): (b: Bytes)
    ensures |b| == 11
  {
    Le32(uncompressed % 0x1_0000_0000)
    + ([kind] + (Le32((payload + 2) % 0x1_0000_0000) + Le16(NO_PL_TYPE)))
  }

  datatype Packed = Packed(uncompressed: nat, kind: Byte, payload: Bytes)

  /** do_message_compression: only long bodies, and only when it gains something. */
  function Pack(z: Zlib, body: Bytes, noCompress: bool): (p: Packed)
    ensures |p.payload| <= |body|
  {
    if noCompress || |body| + 2 <= COMPRESS_THRESHOLD then Packed(0, COMPRESSION_NONE, body)
    else
      match z.compress(body)
      case None => Packed(0, COMPRESSION_FAILED, body)
      case Some(c) =>
        if |c| < |body| then Packed(|body| + 2, COMPRESSION_ZLIB, c) else Packed(0, COMPRESSION_NONE, body)
  }

  function EncPacked(p: Packed): (b: Bytes)
    ensures |b| == 11 + |p.payload|
  {
    Header(p.uncompressed, p.kind, |p.payload|) + p.payload
  }

  function EncMessage(z: Zlib, key: PlKey, d: Desc, s: State, noCompress: bool): Bytes
    requires StateOk(d, s) && NameOk(d.name) && NameOk(key.name)
  {
    EncKey(key) + EncPacked(Pack(z, EncBody(d, s), noCompress))
  }

  /** What read_msg reports: the object read and the bytes used, an unknown description and the
      bytes to skip, or an exception. */
  datatype Received =
    | Received(key: PlKey, desc: Desc, state: State, used: nat)
    | Unknown(used: nat)
    | Thrown(why: Fault)

  function ReadMsg(z: Zlib, descs: seq<Desc>, bs: Bytes): Received {
    match TakeKey(bs)
    case Fail(why) => Thrown(why)
    case Ok(key, rest) =>
      if |rest| < 11 then Thrown(Truncated)
      else
        var len := Read32(rest, 5);
        if |rest| - 9 < len then Thrown(Truncated)
        else if len < 2 then Thrown(Corrupt)
        else
          var used := |bs| - |rest| + 9 + len;
          var payload := rest[11..9 + len];
          var body := if rest[4] == COMPRESSION_ZLIB then z.uncompress(payload, Read32(rest, 0)) else Some(payload);
          if body.None? then Thrown(Corrupt)
          else
            match TakeBody(descs, body.value)
            case Fail(why) => if why.UnknownSdl? then Unknown(used) else Thrown(why)
            case Ok(found, _) => Received(key, found.0, found.1, used)
  }

  /** send_len */
  function SendLen(key: PlKey, d: Desc, s: State): nat
    requires StateOk(d, s) && NameOk(d.name)
  {
    11 + KeyLen(key) + |EncBody(d, s)|
  }

  lemma HeaderFields(uncompressed: nat, kind: Byte, payload: nat)
    requires uncompressed < 0x1_0000_0000 && payload + 2 < 0x1_0000_0000
    ensures var h := Header(uncompressed, kind, payload);
            Read32(h, 0) == uncompressed && h[4] == kind && Read32(h, 5) == payload + 2
  {
    var h := Header(uncompressed, kind, payload);
    var tail := Le32(payload + 2) + Le16(NO_PL_TYPE);
    assert h[5..] == tail;
    Take32Le32(uncompressed, [kind] + tail);
    Take32Le32(payload + 2, Le16(NO_PL_TYPE));
    assert Read32(h, 5) == Read32(h[5..], 0);
  }

  lemma HeaderReads(uncompressed: nat, kind: Byte, payload: Bytes, rest: Bytes)
    requires uncompressed < 0x1_0000_0000 && |payload| + 2 < 0x1_0000_0000
    ensures
      var bs := EncPacked(Packed(uncompressed, kind, payload)) + rest;
      && Read32(bs, 0) == uncompressed && bs[4] == kind && Read32(bs, 5) == |payload| + 2
      && bs[11..11 + |payload|] == payload
  {
    HeaderFields(uncompressed, kind, |payload|);
    hide Header;
    var bs := EncPacked(Packed(uncompressed, kind, payload)) + rest;
    assert forall i | 0 <= i < 11 :: bs[i] == Header(uncompressed, kind, |payload|)[i];
  }

  /** Whether or not compression was chosen, reading a written message gives the same key and
      state, uses exactly the bytes written, and those are at most the announced number;
      exactly that number when nothing was compressed. */
  lemma MessageRoundTrip(z: Zlib, descs: seq<Desc>, key: PlKey, d: Desc, s: State, noCompress: bool, rest: Bytes)
    requires z.Inverse() && StateOk(d, s) && Sendable(d, s) && Known(descs, d) && NameOk(key.name)
    requires |EncBody(d, s)| + 2 < 0x1_0000_0000
    ensures
      var msg := EncMessage(z, key, d, s, noCompress);
      && ReadMsg(z, descs, msg + rest) == Received(KeySent(key), d, StateSent(s), |msg|)
      && |msg| <= SendLen(key, d, s)
      && (Pack(z, EncBody(d, s), noCompress).kind != COMPRESSION_ZLIB ==> |msg| == SendLen(key, d, s))
  {
    hide EncKey, TakeKey, EncBody, TakeBody, EncPacked, StateOk, Sendable, FindByName;
    var body := EncBody(d, s);
    var p := Pack(z, body, noCompress);
    var tail := EncPacked(p) + rest;
    var msg := EncMessage(z, key, d, s, noCompress);
    Assoc(EncKey(key), EncPacked(p), rest);
    HeaderReads(p.uncompressed, p.kind, p.payload, rest);
    HeaderReads(p.uncompressed, p.kind, p.payload, []);
    assert EncPacked(p) + [] == EncPacked(p);
    KeyRoundTrip(key, tail);
    KeyLenExact(key);
    BodyRoundTrip(descs, d, s, []);
    assert body + [] == body;
  }

  // ---------- Writing ----------

  /** write_out */
  method WriteOut(d: Desc, s: State, buf: array<Byte>, at: nat, end: nat) returns (ret: int)
    requires StateOk(d, s) && NameOk(d.name) && at <= end <= buf.Length
    modifies buf
    ensures ret == if |EncBody(d, s)| <= end - at then |EncBody(d, s)| else -1
    ensures ret >= 0 ==> Wrote(buf[..], old(buf[..]), at, EncBody(d, s))
    ensures SameOutside(buf[..], old(buf[..]), at, end)
  {
    hide EncState, StateOk, Wrote, SameOutside;
    var front := EncName(d.name) + Le16(d.version);
    Assoc(EncName(d.name), Le16(d.version), EncState(d, s));
    ghost var was := buf[..];
    var off := WriteBytes(front, buf, at, end);
    if off < 0 {
      return -1;
    }
    ghost var mid := buf[..];
    ret := RecursiveWrite(d, s, buf, off, end);
    off := if ret < 0 then ret else off + ret;
    Then(was, mid, buf[..], at, front, EncState(d, s), end, off);
    ret := if off < 0 then -1 else off - at;
  }

  lemma OtherKind(body: Bytes, kind: Byte)
    ensures EncPacked(Packed(0, kind, body)) == EncPacked(Packed(0, COMPRESSION_NONE, body))[4 := kind]
  {
  }

  lemma FrameReads(bs: Bytes, at: nat, body: Bytes)
    requires |body| + 2 < 0x1_0000_0000 && at + 11 + |body| <= |bs|
    requires bs[at..at + 11 + |body|] == EncPacked(Packed(0, COMPRESSION_NONE, body))
    ensures Read32(bs, at + 5) == |body| + 2 && bs[at + 11..at + 11 + |body|] == body
  {
    var frame := bs[at..at + 11 + |body|];
    HeaderReads(0, COMPRESSION_NONE, body, []);
    assert frame + [] == frame;
    assert forall i | 5 <= i < 9 :: bs[at + i] == frame[i];
    assert bs[at + 11..at + 11 + |body|] == frame[11..];
  }

  /** Compress a framed body in place; zero means the frame keeps its length. */
  method DoMessageCompression(z: Zlib, buf: array<Byte>, at: nat, ghost body: Bytes) returns (ret: nat)
    requires |body| + 2 < 0x1_0000_0000 && at + 11 + |body| <= buf.Length
    requires buf[at..at + 11 + |body|] == EncPacked(Packed(0, COMPRESSION_NONE, body))
    modifies buf
    ensures buf[..at] == old(buf[..at])
    ensures var p := Pack(z, body, false);
            && ret == (if p.kind == COMPRESSION_ZLIB then |p.payload| + 2 else 0)
            && buf[at..at + 11 + |p.payload|] == EncPacked(p)
  {
    hide EncPacked, Read32;
    ghost var frame := EncPacked(Packed(0, COMPRESSION_NONE, body));
    FrameReads(buf[..], at, body);
    var len := Read32(buf[..], at + 5);
    ret := 0;
    if len > COMPRESS_THRESHOLD {
      var source := buf[at + 11..at + 11 + len - 2];
      match z.compress(source) {
        case None =>
          buf[at + 4] := COMPRESSION_FAILED;
          OtherKind(body, COMPRESSION_FAILED);
          assert buf[at..at + 11 + |body|] == frame[4 := COMPRESSION_FAILED];
        case Some(c) =>
          if |c| < len - 2 {
            ret := |c| + 2;
            Put(buf, at, EncPacked(Packed(len, COMPRESSION_ZLIB, c)));
          }
      }
    }
  }

  /** The body, framed by a header that claims the number of bytes write_out returned. */
  method WriteFrame(d: Desc, s: State, buf: array<Byte>, at: nat, end: nat) returns (wrote: nat)
    requires StateOk(d, s) && NameOk(d.name) && |EncBody(d, s)| < 0xFFFF_FFFE && at + 11 <= end <= buf.Length
    modifies buf
    ensures wrote == if at + 11 + |EncBody(d, s)| <= end then |EncBody(d, s)| else 0xFFFF_FFFF
    ensures buf[..at] == old(buf[..at])
    ensures wrote != 0xFFFF_FFFF ==>
              at + 11 + wrote <= buf.Length
              && buf[at..at + 11 + wrote] == EncPacked(Packed(0, COMPRESSION_NONE, EncBody(d, s)))
  {
    hide EncBody, StateOk, Header;
    var signed := WriteOut(d, s, buf, at + 11, end);
    assert buf[..at] == buf[..at + 11][..at] == old(buf[..at + 11])[..at];
    wrote := if signed < 0 then 0xFFFF_FFFF else signed;
    ghost var body, mid := EncBody(d, s), buf[..];
    var header := Header(0, COMPRESSION_NONE, wrote);
    Put(buf, at, header);
    if signed >= 0 {
      assert mid[at + 11..at + 11 + wrote] == body;
      assert buf[at..at + 11 + wrote] == header + body;
    }
  }

  /** The buffer-too-small result of write_out is kept in an unsigned number, so only a buffer
      too small for key and header is reported; between that and send_len the caller is told
      that a message of one body byte less than none was written. */
  method WriteMsg(z: Zlib, key: PlKey, d: Desc, s: State, buf: array<Byte>, size: nat, noCompress: bool)
    returns (ret: int)
    requires StateOk(d, s) && NameOk(d.name) && NameOk(key.name) && size <= buf.Length
    requires |EncBody(d, s)| + 2 < 0x1_0000_0000
    modifies buf
    ensures size < KeyLen(key) + 11 ==> ret == -1
    ensures KeyLen(key) + 11 <= size < SendLen(key, d, s) ==> ret == KeyLen(key) + 10
    ensures SendLen(key, d, s) <= size ==>
              ret == |EncMessage(z, key, d, s, noCompress)| && buf[..ret] == EncMessage(z, key, d, s, noCompress)
  {
    hide EncKey, EncBody, StateOk, EncPacked;
    var start := KeyLen(key);
    KeyLenExact(key);
    if size < start + 11 {
      return -1;
    }
    Put(buf, 0, EncKey(key));
    assert buf[..start] == EncKey(key);
    ghost var body := EncBody(d, s);
    var wrote := WriteFrame(d, s, buf, start, size);
    ret := start + 9 + (wrote + 2) % 0x1_0000_0000;
    if wrote == 0xFFFF_FFFF {
      // the header now claims a single byte, too short to be compressed
      return;
    }
    ret := Finish(z, buf, start, body, noCompress, wrote);
    assert buf[..ret] == buf[..start] + buf[start..ret];
  }

  method Finish(z: Zlib, buf: array<Byte>, at: nat, ghost body: Bytes, noCompress: bool, wrote: nat) returns (ret: nat)
    requires wrote == |body| && wrote + 2 < 0x1_0000_0000 && at + 11 + wrote <= buf.Length
    requires buf[at..at + 11 + wrote] == EncPacked(Packed(0, COMPRESSION_NONE, body))
    modifies buf
    ensures buf[..at] == old(buf[..at])
    ensures at <= ret <= buf.Length && buf[at..ret] == EncPacked(Pack(z, body, noCompress))
  {
    hide EncPacked;
    ret := at + 9 + wrote + 2;
    if !noCompress {
      var len := DoMessageCompression(z, buf, at, body);
      if len != 0 {
        ret := at + 9 + len;
      }
    }
  }
}

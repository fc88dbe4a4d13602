/** Sending a vault node from any position on (VaultNode.cc).  The two writers form pointers of
    their own, which do not always point into the field they mean; what they then find depends on
    the memory behind it. */
module VaultSending {
  import opened Wire
  import opened Writers
  import opened VaultNodes

  /** A stretch of the node; header words are copied as plainly as identifiers. */
  datatype Part = Part(kind: Kind, bytes: Bytes)

  /** What is written, and whether that is taken for the end of the node. */
  datatype Out = Out(bytes: Bytes, done: bool)

  function Segs(parts: seq<Part>): (s: seq<Bytes>)
    ensures |s| == |parts|
  {
    seq(|parts|, i requires 0 <= i < |parts| => parts[i].bytes)
  }

  /** Behind every part lies some memory. */
  predicate MemoryOk(parts: seq<Part>, past: seq<Bytes>) {
    && |past| == |parts|
    && (forall i | 0 <= i < |parts| :: |past[i]| >= |parts[i].bytes| + 16)
    && (forall i | 0 <= i < |parts| && parts[i].kind.Number? :: |parts[i].bytes| <= 4)
  }

  // ---------- Into a buffer ----------

  /** What the writer takes for the rest of a part: of data it always wants the whole. */
  function Wanted(part: Part, pos: nat): nat
    requires pos < |part.bytes|
  {
    if part.kind.Data? then |part.bytes| else |part.bytes| - pos
  }

  /** Where it copies from: the position in a number is counted in words. */
  function Source(part: Part, pos: nat): nat { if part.kind.Number? then 4 * pos else pos }

  function Copied(part: Part, behind: Bytes, pos: nat, room: nat): (x: Bytes)
    requires pos < |part.bytes| && |behind| >= |part.bytes| + 16 && (part.kind.Number? ==> |part.bytes| <= 4)
    ensures |x| == Min(Wanted(part, pos), room)
  {
    (part.bytes + behind)[Source(part, pos)..Source(part, pos) + Min(Wanted(part, pos), room)]
  }

  /** Inside a number what is taken for its rest lies none, four or eight bytes behind it, in both writers. */
  lemma NumberIsMissed(part: Part, behind: Bytes, pos: nat, room: nat)
    requires part.kind.Number? && |part.bytes| == 4 && 0 < pos < 4 && |behind| >= 20
    ensures Copied(part, behind, pos, room) == behind[4 * pos - 4..4 * pos - 4 + Min(4 - pos, room)]
    ensures Shown(part, behind, pos) == behind[4 * pos - 4..4 * pos - 4 + (4 - pos)]
  {
    SliceOfTail(part.bytes, behind, 4 * pos, 4 * pos + Min(4 - pos, room));
    SliceOfTail(part.bytes, behind, 4 * pos, 4 * pos + (4 - pos));
  }

  /** The parts from the i-th on, at a position in them. */
  function FillFrom(parts: seq<Part>, past: seq<Bytes>, i: nat, pos: nat, room: nat): (out: Out)
    requires MemoryOk(parts, past) && i <= |parts|
    ensures |out.bytes| <= room
    decreases |parts| - i
  {
    if i == |parts| then Out([], true)
    else if pos >= |parts[i].bytes| then FillFrom(parts, past, i + 1, pos - |parts[i].bytes|, room)
    else
      var x := Copied(parts[i], past[i], pos, room);
      if Wanted(parts[i], pos) > room then Out(x, false)
      else
        var rest := FillFrom(parts, past, i + 1, 0, room - |x|);
        Out(x + rest.bytes, rest.done)
  }

  /** What should be written. */
  function Slice(whole: Bytes, pos: nat, room: nat): Out
    requires pos <= |whole|
  {
    Out(whole[pos..pos + Min(room, |whole| - pos)], room >= |whole| - pos)
  }

  /** The part in which a position lies, and the position in it. */
  function Place(parts: seq<Part>, i: nat, pos: nat): (p: Option<(nat, nat)>)
    requires i <= |parts|
    ensures p.Some? ==> i <= p.value.0 < |parts| && p.value.1 < |parts[p.value.0].bytes|
    decreases |parts| - i
  {
    if i == |parts| then None
    else if pos < |parts[i].bytes| then Some((i, pos))
    else Place(parts, i + 1, pos - |parts[i].bytes|)
  }

  /** A position strictly inside a part of a kind. */
  predicate Inside(parts: seq<Part>, i: nat, pos: nat, kind: Kind)
    requires i <= |parts|
  {
    var p := Place(parts, i, pos);
    p.Some? && p.value.1 > 0 && parts[p.value.0].kind == kind
  }

  /** What is left of the part in which a position lies. */
  function LeftOfPart(parts: seq<Part>, i: nat, pos: nat): nat
    requires i <= |parts|
  {
    var p := Place(parts, i, pos);
    if p.None? then 0 else |parts[p.value.0].bytes| - p.value.1
  }

  /** Resuming inside a number is only right if there is no room anyway; inside data, if the room
      does not go beyond it, nor up to the end of the node. */
  predicate Resumes(parts: seq<Part>, i: nat, pos: nat, room: nat)
    requires i <= |parts|
  {
    && (Inside(parts, i, pos, Number) ==> room == 0)
    && (Inside(parts, i, pos, Data) ==>
          room <= LeftOfPart(parts, i, pos) && pos + room < |Flat(Segs(parts)[i..])|)
  }

  lemma PlaceOfFront(parts: seq<Part>, i: nat, kind: Kind)
    requires i <= |parts|
    ensures !Inside(parts, i, 0, kind)
    decreases |parts| - i
  {
    if i < |parts| && parts[i].bytes == [] {
      PlaceOfFront(parts, i + 1, kind);
    }
  }

  lemma TailSplits(parts: seq<Part>, i: nat)
    requires i < |parts|
    ensures Flat(Segs(parts)[i..]) == parts[i].bytes + Flat(Segs(parts)[i + 1..])
  {
    assert Segs(parts)[i..][1..] == Segs(parts)[i + 1..];
  }

  lemma TailEnds(parts: seq<Part>)
    ensures Flat(Segs(parts)[|parts|..]) == []
  {
  }

  /** A slice that begins in the first of two stretches. */
  lemma SliceAcross(a: Bytes, b: Bytes, pos: nat, room: nat)
    requires pos <= |a|
    ensures room < |a| - pos ==> Slice(a + b, pos, room) == Out(a[pos..pos + room], false)
    ensures room >= |a| - pos ==>
              var rest := Slice(b, 0, room - (|a| - pos));
              Slice(a + b, pos, room) == Out(a[pos..] + rest.bytes, rest.done)
  {
    var n := Min(room, |a| + |b| - pos);
    if room < |a| - pos {
      SliceOfFront(a, b, pos, pos + room);
    } else {
      var m := |a| - pos;
      SlicesJoin(a + b, pos, |a|, pos + n);
      SliceOfFront(a, b, pos, |a|);
      SliceOfTail(a, b, |a|, pos + n);
      assert b[0..n - m] == (a + b)[|a|..pos + n];
    }
  }

  lemma SliceOfFront(a: Bytes, b: Bytes, from: nat, to: nat)
    requires from <= to <= |a|
    ensures (a + b)[from..to] == a[from..to]
  {
  }

  lemma SliceBehind(a: Bytes, b: Bytes, pos: nat, room: nat)
    requires |a| <= pos <= |a| + |b|
    ensures Slice(a + b, pos, room) == Slice(b, pos - |a|, room)
  {
    SliceOfTail(a, b, pos, pos + Min(room, |a| + |b| - pos));
  }

  /** From a position where it resumes, the writer finds what it should, whatever lies behind. */
  lemma {:induction false} FillFromRight(parts: seq<Part>, past: seq<Bytes>, i: nat, pos: nat, room: nat)
    requires MemoryOk(parts, past) && i <= |parts| && pos <= |Flat(Segs(parts)[i..])| && Resumes(parts, i, pos, room)
    ensures FillFrom(parts, past, i, pos, room) == Slice(Flat(Segs(parts)[i..]), pos, room)
    decreases |parts| - i
  {
    hide Flat, Segs, Slice, Copied;
    if i == |parts| {
      TailEnds(parts);
      SliceOfNothing(room);
    } else {
      var a, b := parts[i].bytes, Flat(Segs(parts)[i + 1..]);
      TailSplits(parts, i);
      if pos >= |a| {
        SliceBehind(a, b, pos, room);
        FillFromRight(parts, past, i + 1, pos - |a|, room);
      } else {
        SliceAcross(a, b, pos, room);
        CopiedRight(parts[i], past[i], pos, room);
        if Wanted(parts[i], pos) <= room {
          PlaceOfFront(parts, i + 1, Number);
          PlaceOfFront(parts, i + 1, Data);
          FillFromRight(parts, past, i + 1, 0, room - (|a| - pos));
        } else {
          SliceStops(a, b, pos, room);
        }
      }
    }
  }

  lemma SliceOfNothing(room: nat)
    ensures Slice([], 0, room) == Out([], true)
  {
  }

  lemma SliceStops(a: Bytes, b: Bytes, pos: nat, room: nat)
    requires pos + room <= |a| && pos + room < |a| + |b|
    ensures Slice(a + b, pos, room) == Out(a[pos..pos + room], false)
  {
    assert (a + b)[pos..pos + room] == a[pos..pos + room];
  }

  lemma CopiedRight(part: Part, behind: Bytes, pos: nat, room: nat)
    requires pos < |part.bytes| && |behind| >= |part.bytes| + 16 && (part.kind.Number? ==> |part.bytes| <= 4)
    ensures pos == 0 || part.kind.Id? || (part.kind.Number? && room == 0)
            || (part.kind.Data? && room <= |part.bytes| - pos) ==>
              Copied(part, behind, pos, room) == part.bytes[pos..pos + Min(room, |part.bytes| - pos)]
  {
    var n := Min(room, |part.bytes| - pos);
    assert (part.bytes + behind)[pos..pos + n] == part.bytes[pos..pos + n];
  }

  // ---------- Where it goes wrong ----------

  /** Memory that holds the same byte everywhere. */
  function Uniform(parts: seq<Part>, b: Byte): (past: seq<Bytes>)
    ensures |past| == |parts| && forall i | 0 <= i < |parts| :: |past[i]| == |parts[i].bytes| + 16
  {
    seq(|parts|, i requires 0 <= i < |parts| => seq(|parts[i].bytes| + 16, _ => b))
  }

  predicate NumbersOk(parts: seq<Part>) {
    forall i | 0 <= i < |parts| && parts[i].kind.Number? :: |parts[i].bytes| <= 4
  }

  function Other(b: Byte): Byte { if b == 0 then 1 else 0 }

  /** Anywhere else there is memory with which the result is wrong. */
  lemma {:induction false} FillFromWrong(parts: seq<Part>, i: nat, pos: nat, room: nat) returns (b: Byte)
    requires NumbersOk(parts) && i <= |parts| && pos <= |Flat(Segs(parts)[i..])| && !Resumes(parts, i, pos, room)
    ensures FillFrom(parts, Uniform(parts, b), i, pos, room) != Slice(Flat(Segs(parts)[i..]), pos, room)
    decreases |parts| - i
  {
    hide Flat, Segs, Slice, Copied;
    var a, rest := parts[i].bytes, Flat(Segs(parts)[i + 1..]);
    TailSplits(parts, i);
    if pos >= |a| {
      SliceBehind(a, rest, pos, room);
      b := FillFromWrong(parts, i + 1, pos - |a|, room);
    } else {
      b := CopiedWrong(parts[i], rest, pos, room);
      var past := Uniform(parts, b);
      assert past[i] == seq(|a| + 16, _ => b);
    }
  }

  /** A part copied to the wrong length or from the wrong place cannot begin the right slice. */
  lemma CopiedWrong(part: Part, rest: Bytes, pos: nat, room: nat) returns (b: Byte)
    requires 0 < pos < |part.bytes| && (part.kind.Number? ==> |part.bytes| <= 4)
    requires (part.kind.Number? && room > 0)
             || (part.kind.Data? && !(room <= |part.bytes| - pos && pos + room < |part.bytes + rest|))
    ensures
      var x, right := Copied(part, seq(|part.bytes| + 16, _ => b), pos, room), Slice(part.bytes + rest, pos, room);
      && (forall y: Bytes :: x + y != right.bytes || (Wanted(part, pos) > room && right.done))
      && (Wanted(part, pos) > room ==> x != right.bytes || right.done)
  {
    var whole, a := part.bytes + rest, part.bytes;
    var at := if part.kind.Number? then pos else if |whole| > |a| then |a| else pos;
    b := Other(whole[at]);
    var behind: Bytes := seq(|a| + 16, _ => b);
    var x, right := Copied(part, behind, pos, room), Slice(whole, pos, room);
    if part.kind.Number? {
      assert x[0] == b && right.bytes[0] == whole[pos];
      forall y: Bytes ensures x + y != right.bytes {
        assert (x + y)[0] == x[0];
      }
    } else if room > |a| - pos {
      assert x[|a| - pos] == b;
      if |whole| > |a| {
        assert right.bytes[|a| - pos] == whole[|a|];
      }
      forall y: Bytes ensures x + y != right.bytes {
        assert (x + y)[|a| - pos] == x[|a| - pos];
      }
    }
  }

  // ---------- Nodes ----------

  /** The fields that are sent; what is left out is an empty stretch. */
  function FieldParts(inc: Bits, fields: seq<VaultNodes.Field>): (p: seq<Part>)
    requires |fields| == FIELDS
    ensures |p| == FIELDS
  {
    seq(FIELDS, i requires 0 <= i < FIELDS => Part(KindOf(i), if inc[i] then EncField(fields[i]) else []))
  }

  /** The three header words and the fields, in order. */
  function NodeParts(length: U32, bits: Bits, fields: seq<VaultNodes.Field>): (p: seq<Part>)
    requires |fields| == FIELDS
    ensures |p| == 3 + FIELDS
  {
    var inc := Included(bits, fields);
    [Part(Id, Le32(length)), Part(Id, Le32(Word(inc))), Part(Id, Le32(0))] + FieldParts(inc, fields)
  }

  lemma PartsEncode(length: U32, bits: Bits, fields: seq<VaultNodes.Field>)
    requires |fields| == FIELDS
    ensures Flat(Segs(NodeParts(length, bits, fields))) == EncNode(length, bits, fields)
  {
    hide Le32, Word, Included, KindOf, EncField;
    var inc := Included(bits, fields);
    var a, b, c, rest := Le32(length), Le32(Word(inc)), Le32(0), Pieces(inc, fields);
    var p := Segs(NodeParts(length, bits, fields));
    assert p == [a, b, c] + rest;
    assert p[1..] == [b, c] + rest && ([b, c] + rest)[1..] == [c] + rest && ([c] + rest)[1..] == rest;
    assert Flat([c] + rest) == c + Flat(rest);
    assert Flat([b, c] + rest) == b + Flat([c] + rest);
  }

  lemma PartsNumbers(length: U32, bits: Bits, fields: seq<VaultNodes.Field>)
    requires AllOk(bits, fields)
    ensures NumbersOk(NodeParts(length, bits, fields))
  {
    hide Le32, Word;
  }

  /** What fill_buffer writes, given what lies behind each part. */
  function Filling(length: U32, bits: Bits, fields: seq<VaultNodes.Field>, past: seq<Bytes>, start: nat, len: nat): Out
    requires |fields| == FIELDS && MemoryOk(NodeParts(length, bits, fields), past)
  {
    FillFrom(NodeParts(length, bits, fields), past, 0, start, len)
  }

  /** fill_buffer can be resumed at a position. */
  predicate Resumable(length: U32, bits: Bits, fields: seq<VaultNodes.Field>, start: nat, len: nat)
    requires |fields| == FIELDS
  {
    Resumes(NodeParts(length, bits, fields), 0, start, len)
  }

  /** Bytes, their number and completion are right whatever lies in memory, exactly if the writer
      can be resumed there. */
  lemma FillingIsRight(length: U32, bits: Bits, fields: seq<VaultNodes.Field>, start: nat, len: nat)
    requires AllOk(bits, fields) && start <= |EncNode(length, bits, fields)|
    ensures
      (forall past | MemoryOk(NodeParts(length, bits, fields), past) ::
         Filling(length, bits, fields, past, start, len) == Slice(EncNode(length, bits, fields), start, len))
      <==> Resumable(length, bits, fields, start, len)
  {
    hide FillFrom, Resumes, EncNode, NodeParts, Slice;
    var parts := NodeParts(length, bits, fields);
    PartsEncode(length, bits, fields);
    PartsNumbers(length, bits, fields);
    assert Segs(parts)[0..] == Segs(parts);
    if Resumable(length, bits, fields, start, len) {
      forall past | MemoryOk(parts, past)
        ensures Filling(length, bits, fields, past, start, len) == Slice(EncNode(length, bits, fields), start, len)
      {
        FillFromRight(parts, past, 0, start, len);
      }
    } else {
      var b := FillFromWrong(parts, 0, start, len);
      assert MemoryOk(parts, Uniform(parts, b));
    }
  }

  // ---------- fill_buffer itself ----------

  /** x is written, and the writer stands at a position in the i-th part; or it has run out of room. */
  ghost predicate Along(parts: seq<Part>, past: seq<Bytes>, start: nat, len: nat, i: nat, pos: nat, x: Bytes,
                        ok: bool)
  {
    && MemoryOk(parts, past) && i <= |parts| && |x| <= len
    && var all := FillFrom(parts, past, 0, start, len);
    if ok then
      var rest := FillFrom(parts, past, i, pos, len - |x|);
      all == Out(x + rest.bytes, rest.done)
    else all == Out(x, false) && |x| == len && pos == 0
  }

  lemma AlongStarts(parts: seq<Part>, past: seq<Bytes>, start: nat, len: nat)
    requires MemoryOk(parts, past)
    ensures Along(parts, past, start, len, 0, start, [], true)
  {
  }

  lemma AlongSkips(parts: seq<Part>, past: seq<Bytes>, start: nat, len: nat, i: nat, pos: nat, x: Bytes, ok: bool)
    requires Along(parts, past, start, len, i, pos, x, ok) && i < |parts| && pos >= |parts[i].bytes|
    ensures Along(parts, past, start, len, i + 1, pos - |parts[i].bytes|, x, ok)
  {
  }

  lemma AlongCopies(parts: seq<Part>, past: seq<Bytes>, start: nat, len: nat, i: nat, pos: nat, x: Bytes, ok: bool,
      y: Bytes)
    requires Along(parts, past, start, len, i, pos, x, ok) && i < |parts| && pos < |parts[i].bytes|
    requires y == Copied(parts[i], past[i], pos, len - |x|)
    ensures Along(parts, past, start, len, i + 1, 0, x + y, ok && Wanted(parts[i], pos) <= len - |x|)
  {
    hide Copied;
    var room := len - |x|;
    if ok && Wanted(parts[i], pos) <= room {
      Assoc(x, y, FillFrom(parts, past, i + 1, 0, room - |y|).bytes);
    }
  }

  lemma AlongEnds(parts: seq<Part>, past: seq<Bytes>, start: nat, len: nat, i: nat, pos: nat, x: Bytes, ok: bool)
    requires Along(parts, past, start, len, i, pos, x, ok) && (i == |parts| || !ok)
    ensures FillFrom(parts, past, 0, start, len) == Out(x, ok)
  {
  }

  /** As much of a stretch of memory as there is room for; the message is not done if that is less
      than was wanted. */
  method CopyOut(memory: Bytes, from: nat, wanted: nat, buf: array<Byte>, at: nat, len: nat, n: nat, done: bool,
                 ghost was: Bytes, ghost x: Bytes)
    returns (n': nat, done': bool, ghost y: Bytes)
    requires n == |x| <= len && at + len <= buf.Length && Wrote(buf[..], was, at, x) && from + wanted <= |memory|
    modifies buf
    ensures y == memory[from..from + Min(wanted, len - n)] && n' == |x + y| <= len
    ensures done' <==> done && wanted <= len - n
    ensures Wrote(buf[..], was, at, x + y)
  {
    var wrlen := wanted;
    done' := done;
    if wrlen > len - n {
      done' := false;
      wrlen := len - n;
    }
    y := memory[from..from + wrlen];
    Append(buf, at + n, memory[from..from + wrlen], was, at, x);
    n' := n + wrlen;
  }

  /** One header word, as the writer goes over all three of them. */
  method FillWord(word: Bytes, buf: array<Byte>, at: nat, len: nat, n: nat, pos: nat, done: bool,
                  ghost was: Bytes, ghost x: Bytes, ghost parts: seq<Part>, ghost past: seq<Bytes>,
                  ghost start: nat, ghost i: nat)
    returns (n': nat, pos': nat, done': bool, ghost x': Bytes)
    requires n == |x| && at + len <= buf.Length && Wrote(buf[..], was, at, x)
    requires Along(parts, past, start, len, i, pos, x, done) && i < |parts| && parts[i] == Part(Id, word) && |word| == 4
    modifies buf
    ensures n' == |x'| && Wrote(buf[..], was, at, x') && Along(parts, past, start, len, i + 1, pos', x', done')
  {
    hide Along, Wrote, FillFrom;
    n', pos', done', x' := n, pos, done, x;
    AlongBound(parts, past, start, len, i, pos, x, done);
    if pos < 4 {
      ghost var y;
      n', done', y := CopyOut(word, pos, 4 - pos, buf, at, len, n, done, was, x);
      PlainCopy(parts[i], past[i], pos, len - n);
      AlongCopies(parts, past, start, len, i, pos, x, done, y);
      x', pos' := x + y, 0;
    } else {
      AlongSkips(parts, past, start, len, i, pos, x, done);
      pos' := pos - 4;
    }
  }

  lemma AlongBound(parts: seq<Part>, past: seq<Bytes>, start: nat, len: nat, i: nat, pos: nat, x: Bytes, ok: bool)
    requires Along(parts, past, start, len, i, pos, x, ok)
    ensures MemoryOk(parts, past) && |x| <= len
  {
  }

  lemma PlainCopy(part: Part, behind: Bytes, pos: nat, room: nat)
    requires part.kind.Id? && pos < |part.bytes| && |behind| >= |part.bytes| + 16
    ensures Copied(part, behind, pos, room) == part.bytes[pos..pos + Min(|part.bytes| - pos, room)]
  {
    CopiedRight(part, behind, pos, room);
  }

  /** One field that is sent, by kind. */
  method FillField(part: Part, behind: Bytes, buf: array<Byte>, at: nat, len: nat, n: nat, pos: nat, done: bool,
                   ghost was: Bytes, ghost x: Bytes, ghost parts: seq<Part>, ghost past: seq<Bytes>,
                  ghost start: nat, ghost i: nat)
    returns (n': nat, pos': nat, done': bool, ghost x': Bytes)
    requires n == |x| && at + len <= buf.Length && Wrote(buf[..], was, at, x)
    requires Along(parts, past, start, len, i, pos, x, done) && i < |parts| && parts[i] == part && past[i] == behind
    requires (part.kind.Number? ==> |part.bytes| == 4) && (part.kind.Id? ==> |part.bytes| == 16)
    modifies buf
    ensures n' == |x'| && Wrote(buf[..], was, at, x') && Along(parts, past, start, len, i + 1, pos', x', done')
  {
    hide Along, Wrote, FillFrom;
    AlongBound(parts, past, start, len, i, pos, x, done);
    n', pos', done', x' := n, pos, done, x;
    var memory, size := part.bytes + behind, |part.bytes|;
    if pos >= size {
      AlongSkips(parts, past, start, len, i, pos, x, done);
      pos' := pos - size;
      return;
    }
    ghost var y;
    match part.kind {
      case Number => n', done', y := CopyOut(memory, 4 * pos, 4 - pos, buf, at, len, n, done, was, x);
      case Id => n', done', y := CopyOut(memory, pos, 16 - pos, buf, at, len, n, done, was, x);
      case Data => n', done', y := CopyOut(memory, pos, size, buf, at, len, n, done, was, x);
    }
    AlongCopies(parts, past, start, len, i, pos, x, done, y);
    x', pos' := x + y, 0;
  }

  /** The header: length and both words of the bit field. */
  method FillHeader(length: Bytes, bits: Bytes, none: Bytes, buf: array<Byte>, at: nat, len: nat, start: nat,
                    ghost parts: seq<Part>, ghost past: seq<Bytes>)
    returns (n: nat, pos: nat, done: bool, ghost x: Bytes)
    requires at + len <= buf.Length && MemoryOk(parts, past) && |parts| >= 3
    requires parts[0] == Part(Id, length) && parts[1] == Part(Id, bits) && parts[2] == Part(Id, none)
    requires |length| == |bits| == |none| == 4
    modifies buf
    ensures n == |x| && Wrote(buf[..], old(buf[..]), at, x) && Along(parts, past, start, len, 3, pos, x, done)
  {
    hide FillFrom, Along, Wrote, MemoryOk;
    ghost var was := buf[..];
    x := [];
    WroteNothing(was, at);
    AlongStarts(parts, past, start, len);
    n, pos, done := 0, start, true;
    n, pos, done, x := FillWord(length, buf, at, len, n, pos, done, was, x, parts, past, start, 0);
    n, pos, done, x := FillWord(bits, buf, at, len, n, pos, done, was, x, parts, past, start, 1);
    n, pos, done, x := FillWord(none, buf, at, len, n, pos, done, was, x, parts, past, start, 2);
  }

  lemma HeaderParts(length: U32, bits: Bits, fields: seq<VaultNodes.Field>)
    requires AllOk(bits, fields)
    ensures
      var parts := NodeParts(length, bits, fields);
      && |parts| == 3 + FIELDS && parts[0] == Part(Id, Le32(length))
      && parts[1] == Part(Id, Le32(Word(Included(bits, fields)))) && parts[2] == Part(Id, Le32(0))
      && forall i | 0 <= i < FIELDS ::
           && (Included(bits, fields)[i] ==> parts[3 + i] == Part(KindOf(i), EncField(fields[i])))
           && (!Included(bits, fields)[i] ==> parts[3 + i].bytes == [])
           && (Included(bits, fields)[i] ==> FieldOk(KindOf(i), fields[i]))
  {
    hide Word, Le32, EncField, KindOf, FieldOk, Mask;
  }

  /** fill_buffer.  past is what lies in memory behind each part. */
  method FillNode(node: Node, past: seq<Bytes>, buf: array<Byte>, at: nat, len: nat, start: nat)
    returns (n: nat, done: bool)
    requires node.Valid() && node.length < 0x1_0000_0000 && at + len <= buf.Length
    requires MemoryOk(NodeParts(node.length, node.bits, node.fields[..]), past)
    modifies buf
    ensures
      var out := Filling(node.length, node.bits, node.fields[..], past, start, len);
      n == |out.bytes| && done == out.done && Wrote(buf[..], old(buf[..]), at, out.bytes)
  {
    hide FillFrom, Along, Wrote, Le32, Word, EncField, KindOf, FieldOk, MemoryOk, NodeParts, Included;
    ghost var was, parts := buf[..], NodeParts(node.length, node.bits, node.fields[..]);
    var toInclude := Included(node.bits, node.fields[..]);
    HeaderParts(node.length, node.bits, node.fields[..]);
    var pos;
    ghost var x;
    n, pos, done, x :=
      FillHeader(Le32(node.length), Le32(Word(toInclude)), Le32(0), buf, at, len, start, parts, past);
    for i := 0 to FIELDS
      invariant n == |x| && Wrote(buf[..], was, at, x) && Along(parts, past, start, len, 3 + i, pos, x, done)
    {
      AlongBound(parts, past, start, len, 3 + i, pos, x, done);
      if toInclude[i] {
        SizeOfField(KindOf(i), node.fields[i]);
        n, pos, done, x := FillField(Part(KindOf(i), EncField(node.fields[i])), past[3 + i], buf, at, len, n, pos, done,
                                     was, x, parts, past, start, 3 + i);
        if !done {
          AlongEnds(parts, past, start, len, 3 + i + 1, pos, x, done);
          return;
        }
      } else {
        AlongSkips(parts, past, start, len, 3 + i, pos, x, done);
      }
    }
    AlongEnds(parts, past, start, len, 3 + FIELDS, pos, x, done);
  }

  lemma SizeOfField(kind: Kind, f: VaultNodes.Field)
    requires FieldOk(kind, f)
    ensures (kind.Number? ==> |EncField(f)| == 4) && (kind.Id? ==> |EncField(f)| == 16)
  {
  }

  // ---------- Lengths ----------

  /** The length in the header is right exactly if everything that is set is sent. */
  lemma LengthIsRight(length: U32, bits: Bits, fields: seq<VaultNodes.Field>)
    requires AllOk(bits, fields) && length == 8 + Size(bits, fields)
    ensures |EncNode(length, bits, fields)| <= length + 4
    ensures |EncNode(length, bits, fields)| == length + 4 <==> OfType(bits, fields)
  {
    hide Mask, Word, Le32;
    var inc := Included(bits, fields);
    IncludedAll(bits, fields);
    FewerPieces(bits, fields);
    SomeLeftOut(Pieces(inc, fields), Pieces(bits, fields));
  }

  /** A set field takes at least four bytes, so leaving it out shows. */
  lemma FewerPieces(bits: Bits, fields: seq<VaultNodes.Field>)
    requires AllOk(bits, fields)
    ensures
      var p, q := Pieces(Included(bits, fields), fields), Pieces(bits, fields);
      && (forall i | 0 <= i < FIELDS :: p[i] == q[i] || (p[i] == [] && |q[i]| >= 4))
      && (p == q <==> Included(bits, fields) == bits)
  {
    hide Mask, KindOf, TypeOf;
    var inc := Included(bits, fields);
    var p, q := Pieces(inc, fields), Pieces(bits, fields);
    forall i | 0 <= i < FIELDS ensures (inc[i] ==> bits[i]) && (bits[i] ==> |q[i]| >= 4) {
    }
    if p == q {
      forall i | 0 <= i < FIELDS ensures inc[i] == bits[i] {
        assert p[i] == q[i];
      }
    }
  }

  lemma {:induction false} SomeLeftOut(p: seq<Bytes>, q: seq<Bytes>)
    requires |p| == |q| && forall i | 0 <= i < |p| :: p[i] == q[i] || (p[i] == [] && |q[i]| >= 4)
    ensures |Flat(p)| <= |Flat(q)| && (|Flat(p)| == |Flat(q)| <==> p == q)
  {
    if p != [] {
      SomeLeftOut(p[1..], q[1..]);
      assert p == [p[0]] + p[1..] && q == [q[0]] + q[1..];
    }
  }

  /** iovecs_written_bytes believes the length, so it is only right for nodes that send all. */
  method NodeWrittenBytes(node: Node, count: nat, start: nat) returns (left: nat, done: bool)
    requires node.Valid() && node.length < 0x1_0000_0000
    ensures OfType(node.bits, node.fields[..]) ==>
              (done <==> start + count >= |EncNode(node.length, node.bits, node.fields[..])|)
    ensures !OfType(node.bits, node.fields[..]) ==>
              (start + count == |EncNode(node.length, node.bits, node.fields[..])| ==> !done)
    ensures left == if done then start + count - (node.length + 4) else 0
  {
    hide EncNode, OfType;
    LengthIsRight(node.length, node.bits, node.fields[..]);
    if count + start < node.length + 4 {
      left, done := 0, false;
    } else {
      left, done := (count + start) - (node.length + 4), true;
    }
  }

  // ---------- As pieces ----------

  /** What is handed out of a part from a position in it. */
  function Shown(part: Part, behind: Bytes, pos: nat): (x: Bytes)
    requires pos < |part.bytes| && |behind| >= |part.bytes| + 16 && (part.kind.Number? ==> |part.bytes| <= 4)
    ensures |x| == |part.bytes| - pos
  {
    (part.bytes + behind)[Source(part, pos)..Source(part, pos) + (|part.bytes| - pos)]
  }

  function VecsFrom(parts: seq<Part>, past: seq<Bytes>, i: nat, pos: nat, limit: nat): (vecs: seq<Bytes>)
    requires MemoryOk(parts, past) && i <= |parts|
    ensures |vecs| <= limit
    decreases |parts| - i
  {
    if i == |parts| || limit == 0 then []
    else if pos >= |parts[i].bytes| then VecsFrom(parts, past, i + 1, pos - |parts[i].bytes|, limit)
    else [Shown(parts[i], past[i], pos)] + VecsFrom(parts, past, i + 1, 0, limit - 1)
  }

  lemma ShownRight(part: Part, behind: Bytes, pos: nat)
    requires pos < |part.bytes| && |behind| >= |part.bytes| + 16 && (part.kind.Number? ==> |part.bytes| <= 4)
    requires pos == 0 || !part.kind.Number?
    ensures Shown(part, behind, pos) == part.bytes[pos..]
  {
  }

  lemma FlatFirst(v: Bytes, vecs: seq<Bytes>)
    ensures Flat([v] + vecs) == v + Flat(vecs)
  {
    assert ([v] + vecs)[1..] == vecs;
  }

  /** One more piece in front. */
  lemma VecsOkFirst(v: Bytes, vecs: seq<Bytes>, limit: nat, rest: Bytes)
    requires limit > 0 && VecsOk(vecs, limit - 1, rest)
    ensures VecsOk([v] + vecs, limit, v + rest)
  {
    hide Flat;
    FlatFirst(v, vecs);
  }

  lemma {:induction false} VecsFromRight(parts: seq<Part>, past: seq<Bytes>, i: nat, pos: nat, limit: nat)
    requires MemoryOk(parts, past) && i <= |parts| && pos <= |Flat(Segs(parts)[i..])| && !Inside(parts, i, pos, Number)
    ensures VecsOk(VecsFrom(parts, past, i, pos, limit), limit, Flat(Segs(parts)[i..])[pos..])
    decreases |parts| - i
  {
    hide Flat, Segs, Shown;
    FlatOfNone();
    if i == |parts| {
      TailEnds(parts);
    } else if limit > 0 {
      var a, b := parts[i].bytes, Flat(Segs(parts)[i + 1..]);
      TailSplits(parts, i);
      if pos >= |a| {
        assert (a + b)[pos..] == b[pos - |a|..];
        VecsFromRight(parts, past, i + 1, pos - |a|, limit);
      } else {
        assert (a + b)[pos..] == a[pos..] + b && b[0..] == b;
        ShownRight(parts[i], past[i], pos);
        PlaceOfFront(parts, i + 1, Number);
        VecsFromRight(parts, past, i + 1, 0, limit - 1);
        VecsOkFirst(a[pos..], VecsFrom(parts, past, i + 1, 0, limit - 1), limit, b);
      }
    }
  }

  lemma {:induction false} VecsFromWrong(parts: seq<Part>, i: nat, pos: nat, limit: nat) returns (b: Byte)
    requires NumbersOk(parts) && i <= |parts| && pos <= |Flat(Segs(parts)[i..])|
    requires Inside(parts, i, pos, Number) && limit > 0
    ensures !VecsOk(VecsFrom(parts, Uniform(parts, b), i, pos, limit), limit, Flat(Segs(parts)[i..])[pos..])
    decreases |parts| - i
  {
    hide Flat, Segs;
    var a, rest := parts[i].bytes, Flat(Segs(parts)[i + 1..]);
    TailSplits(parts, i);
    if pos >= |a| {
      assert (a + rest)[pos..] == rest[pos - |a|..];
      b := VecsFromWrong(parts, i + 1, pos - |a|, limit);
    } else {
      b := Other(a[pos]);
      var past := Uniform(parts, b);
      assert past[i] == seq(|a| + 16, _ => b);
      var shown, more := Shown(parts[i], past[i], pos), VecsFrom(parts, past, i + 1, 0, limit - 1);
      FlatFirst(shown, more);
      assert shown[0] == b && (shown + Flat(more))[0] == b;
      assert (a + rest)[pos..][0] == a[pos];
    }
  }

  /** For writev the header is one piece. */
  function VecParts(length: U32, bits: Bits, fields: seq<VaultNodes.Field>): (p: seq<Part>)
    requires |fields| == FIELDS
    ensures |p| == 1 + FIELDS
  {
    var inc := Included(bits, fields);
    [Part(Id, Le32(length) + (Le32(Word(inc)) + Le32(0)))] + FieldParts(inc, fields)
  }

  lemma VecPartsEncode(length: U32, bits: Bits, fields: seq<VaultNodes.Field>)
    requires |fields| == FIELDS
    ensures Flat(Segs(VecParts(length, bits, fields))) == EncNode(length, bits, fields)
  {
    hide Le32, Word, Included, KindOf, EncField;
    var inc := Included(bits, fields);
    var p, rest := Segs(VecParts(length, bits, fields)), Pieces(inc, fields);
    assert p == [Le32(length) + (Le32(Word(inc)) + Le32(0))] + rest && p[1..] == rest;
    Assoc(Le32(Word(inc)), Le32(0), Flat(rest));
    Assoc(Le32(length), Le32(Word(inc)) + Le32(0), Flat(rest));
  }

  /** The pieces fill_iovecs hands out. */
  function NodePieces(length: U32, bits: Bits, fields: seq<VaultNodes.Field>, past: seq<Bytes>, limit: nat, start: nat)
    : seq<Bytes>
    requires |fields| == FIELDS && MemoryOk(VecParts(length, bits, fields), past)
  {
    VecsFrom(VecParts(length, bits, fields), past, 0, start, limit)
  }

  predicate InsideNumber(length: U32, bits: Bits, fields: seq<VaultNodes.Field>, start: nat)
    requires |fields| == FIELDS
  {
    Inside(VecParts(length, bits, fields), 0, start, Number)
  }

  /** The pieces are right whatever lies in memory, exactly if the position is not inside a number. */
  lemma PiecesAreRight(length: U32, bits: Bits, fields: seq<VaultNodes.Field>, limit: nat, start: nat)
    requires AllOk(bits, fields) && start <= |EncNode(length, bits, fields)| && limit > 0
    ensures
      (forall past | MemoryOk(VecParts(length, bits, fields), past) ::
         VecsOk(NodePieces(length, bits, fields, past, limit, start), limit, EncNode(length, bits, fields)[start..]))
      <==> !InsideNumber(length, bits, fields, start)
  {
    hide VecsFrom, EncNode, VecParts, VecsOk, Inside;
    var parts := VecParts(length, bits, fields);
    VecPartsEncode(length, bits, fields);
    VecPartsNumbers(length, bits, fields);
    assert Segs(parts)[0..] == Segs(parts);
    if InsideNumber(length, bits, fields, start) {
      var b := VecsFromWrong(parts, 0, start, limit);
      assert MemoryOk(parts, Uniform(parts, b));
    } else {
      forall past | MemoryOk(parts, past)
        ensures VecsOk(NodePieces(length, bits, fields, past, limit, start), limit,
            EncNode(length, bits, fields)[start..])
      {
        VecsFromRight(parts, past, 0, start, limit);
      }
    }
  }

  lemma VecPartsNumbers(length: U32, bits: Bits, fields: seq<VaultNodes.Field>)
    requires AllOk(bits, fields)
    ensures NumbersOk(VecParts(length, bits, fields))
  {
    hide Le32, Word;
  }

  /** What has been handed out, and a position in the i-th part from which to go on. */
  ghost predicate Handing(parts: seq<Part>, past: seq<Bytes>, start: nat, limit: nat, i: nat, pos: nat,
                          vecs: seq<Bytes>)
  {
    && MemoryOk(parts, past) && i <= |parts| && |vecs| <= limit
    && VecsFrom(parts, past, 0, start, limit) == vecs + VecsFrom(parts, past, i, pos, limit - |vecs|)
  }

  lemma HandingMeans(parts: seq<Part>, past: seq<Bytes>, start: nat, limit: nat, i: nat, pos: nat, vecs: seq<Bytes>)
    requires Handing(parts, past, start, limit, i, pos, vecs)
    ensures MemoryOk(parts, past) && |vecs| <= limit
    ensures i == |parts| || |vecs| == limit ==> vecs == VecsFrom(parts, past, 0, start, limit)
  {
  }

  lemma HandingStarts(parts: seq<Part>, past: seq<Bytes>, start: nat, limit: nat)
    requires MemoryOk(parts, past)
    ensures Handing(parts, past, start, limit, 0, start, [])
  {
  }

  /** One part, as long as there are pieces left. */
  method HandOut(part: Part, behind: Bytes, ghost parts: seq<Part>, ghost past: seq<Bytes>, ghost start: nat,
                 limit: nat,
                 ghost i: nat, pos: nat, vecs: seq<Bytes>)
    returns (pos': nat, vecs': seq<Bytes>)
    requires Handing(parts, past, start, limit, i, pos, vecs) && i < |parts| && |vecs| < limit
    requires parts[i] == part && past[i] == behind
    ensures Handing(parts, past, start, limit, i + 1, pos', vecs')
  {
    var memory, size := part.bytes + behind, |part.bytes|;
    if pos >= size {
      pos', vecs' := pos - size, vecs;
    } else {
      var from := if part.kind.Number? then 4 * pos else pos;
      ghost var shown, more := Shown(part, behind, pos), VecsFrom(parts, past, i + 1, 0, limit - |vecs| - 1);
      pos', vecs' := 0, vecs + [memory[from..from + (size - pos)]];
      assert vecs + ([shown] + more) == vecs' + more;
    }
  }

  /** fill_iovecs */
  method NodeVecs(node: Node, past: seq<Bytes>, limit: nat, start: nat) returns (vecs: seq<Bytes>)
    requires node.Valid() && node.length < 0x1_0000_0000 && limit > 0
    requires MemoryOk(VecParts(node.length, node.bits, node.fields[..]), past)
    ensures vecs == NodePieces(node.length, node.bits, node.fields[..], past, limit, start)
  {
    hide Handing, VecsFrom, Le32, Word, EncField, KindOf, FieldOk;
    ghost var parts := VecParts(node.length, node.bits, node.fields[..]);
    var toInclude := Included(node.bits, node.fields[..]);
    var header := Part(Id, Le32(node.length) + (Le32(Word(toInclude)) + Le32(0)));
    HandingStarts(parts, past, start, limit);
    var pos;
    pos, vecs := HandOut(header, past[0], parts, past, start, limit, 0, start, []);
    for i := 0 to FIELDS
      invariant Handing(parts, past, start, limit, 1 + i, pos, vecs)
    {
      HandingMeans(parts, past, start, limit, 1 + i, pos, vecs);
      if |vecs| >= limit {
        return;
      }
      if toInclude[i] {
        var part := Part(KindOf(i), EncField(node.fields[i]));
        pos, vecs := HandOut(part, past[1 + i], parts, past, start, limit, 1 + i, pos, vecs);
      } else {
        HandingSkips(parts, past, start, limit, 1 + i, pos, vecs);
      }
    }
    HandingMeans(parts, past, start, limit, 1 + FIELDS, pos, vecs);
  }

  lemma HandingSkips(parts: seq<Part>, past: seq<Bytes>, start: nat, limit: nat, i: nat, pos: nat, vecs: seq<Bytes>)
    requires Handing(parts, past, start, limit, i, pos, vecs) && i < |parts| && parts[i].bytes == []
    ensures Handing(parts, past, start, limit, i + 1, pos, vecs)
  {
    assert limit == |vecs| ==> VecsFrom(parts, past, i + 1, pos, 0) == [];
  }

  // ---------- Whole nodes ----------

  /** Written in one go and parsed again, a node whose fields belong to its type is the same. */
  method Copy(node: Node, past: seq<Bytes>) returns (copy: Node)
    requires node.Valid() && node.length < 0x1_0000_0000 && OfType(node.bits, node.fields[..])
    requires MemoryOk(NodeParts(node.length, node.bits, node.fields[..]), past)
    ensures fresh(copy) && copy.Valid()
    ensures copy.bits == node.bits && copy.fields[..] == node.fields[..] && copy.length == node.length
  {
    hide EncNode, TakeFields, Read32, FromWord, OfType, AllOk, Filling, NodeParts, MemoryOk, Resumes;
    ghost var enc := EncNode(node.length, node.bits, node.fields[..]);
    LengthIsRight(node.length, node.bits, node.fields[..]);
    var buf := new Byte[node.length + 4];
    ghost var was := buf[..];
    var n, done := FillNode(node, past, buf, 0, buf.Length, 0);
    ResumesAtFront(node.length, node.bits, node.fields[..], buf.Length);
    FillingIsRight(node.length, node.bits, node.fields[..], 0, buf.Length);
    assert Filling(node.length, node.bits, node.fields[..], past, 0, buf.Length) == Slice(enc, 0, buf.Length);
    assert enc[0..|enc|] == enc && buf[..] == enc;
    NodeRoundTrip(node.length, node.bits, node.fields[..], []);
    assert enc + [] == enc;
    copy := new Node.Parse(buf[..]);
  }

  lemma ResumesAtFront(length: U32, bits: Bits, fields: seq<VaultNodes.Field>, len: nat)
    requires |fields| == FIELDS
    ensures Resumable(length, bits, fields, 0, len)
  {
    hide NodeParts;
    PlaceOfFront(NodeParts(length, bits, fields), 0, Number);
    PlaceOfFront(NodeParts(length, bits, fields), 0, Data);
  }

  lemma {:induction false} FillFromSkips(parts: seq<Part>, past: seq<Bytes>, i: nat, k: nat, pos: nat, room: nat)
    requires MemoryOk(parts, past) && i <= k <= |parts| && forall j | i <= j < k :: parts[j].bytes == []
    ensures FillFrom(parts, past, i, pos, room) == FillFrom(parts, past, k, pos, room)
    ensures |Flat(Segs(parts)[i..])| == |Flat(Segs(parts)[k..])|
    decreases k - i
  {
    hide Segs, Flat;
    if i < k {
      TailSplits(parts, i);
      FillFromSkips(parts, past, i + 1, k, pos, room);
    }
  }

  /** A folder with nothing but a name: sixteen bytes, and then the name. */
  lemma FolderWithName(parts: seq<Part>, past: seq<Bytes>, room: nat)
    requires |parts| == 3 + FIELDS && MemoryOk(parts, past)
    requires forall j | 0 <= j < |parts| ::
               |parts[j].bytes| == if j < 3 || j == 10 then 4 else if j == 23 then 8 else 0
    ensures FillFrom(parts, past, 0, 18, room) == FillFrom(parts, past, 23, 2, room)
    ensures FillFrom(parts, past, 24, 0, room) == Out([], true)
    ensures |Flat(Segs(parts))| == 24
  {
    hide Segs, Flat, Copied;
    assert Segs(parts)[0..] == Segs(parts);
    TailSplits(parts, 0);
    TailSplits(parts, 1);
    TailSplits(parts, 2);
    assert FillFrom(parts, past, 0, 18, room) == FillFrom(parts, past, 1, 14, room);
    assert FillFrom(parts, past, 1, 14, room) == FillFrom(parts, past, 2, 10, room);
    assert FillFrom(parts, past, 2, 10, room) == FillFrom(parts, past, 3, 6, room);
    FillFromSkips(parts, past, 3, 10, 6, room);
    TailSplits(parts, 10);
    assert FillFrom(parts, past, 10, 6, room) == FillFrom(parts, past, 11, 2, room);
    FillFromSkips(parts, past, 11, 23, 2, room);
    TailSplits(parts, 23);
    FillFromSkips(parts, past, 24, |parts|, 0, room);
    TailEnds(parts);
  }

  /** The name of a folder, resumed two bytes in with room for just the rest: all of it is written,
      and the writer does not notice.  With more room it writes two bytes too many. */
  lemma ResumedInsideAName(fields: seq<VaultNodes.Field>, bits: Bits, past: seq<Bytes>)
    requires AllOk(bits, fields) && fields[7] == Num(0x16) && fields[20] == Buf([4, 0, 0, 0, 65, 0, 0, 0])
    requires bits == NO_BITS[7 := true][20 := true] && MemoryOk(NodeParts(20, bits, fields), past)
    ensures |EncNode(20, bits, fields)| == 24
    ensures Filling(20, bits, fields, past, 18, 6) == Out([0, 0, 65, 0, 0, 0], false)
    ensures |Filling(20, bits, fields, past, 18, 8).bytes| == 8
  {
    hide FillFrom, EncNode, Le32, Word;
    var parts := NodeParts(20, bits, fields);
    assert Included(bits, fields) == bits;
    PartsEncode(20, bits, fields);
    FolderWithName(parts, past, 6);
    FolderWithName(parts, past, 8);
    FolderWithName(parts, past, 0);
    FillFromStep(parts, past, 23, 2, 6);
    FillFromStep(parts, past, 23, 2, 8);
    var name: Bytes := [4, 0, 0, 0, 65, 0, 0, 0];
    assert parts[23] == Part(Data, name);
    assert (name + past[23])[2..8] == [0, 0, 65, 0, 0, 0];
  }

  lemma FillFromStep(parts: seq<Part>, past: seq<Bytes>, i: nat, pos: nat, room: nat)
    requires MemoryOk(parts, past) && i < |parts| && pos < |parts[i].bytes|
    ensures
      var x := Copied(parts[i], past[i], pos, room);
      FillFrom(parts, past, i, pos, room)
      == if Wanted(parts[i], pos) > room then Out(x, false)
         else
           var rest := FillFrom(parts, past, i + 1, 0, room - |x|);
           Out(x + rest.bytes, rest.done)
  {
  }
}

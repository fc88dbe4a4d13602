/** Bytes as they travel on a connection or lie in a file: little-endian integers,
    reading from the front of a buffer, and in-place writes into a caller's buffer. */
module Wire {
  type Byte = x: int | 0 <= x < 0x100
  type Bytes = seq<Byte>
  type U16 = x: int | 0 <= x < 0x1_0000
  type U32 = x: int | 0 <= x < 0x1_0000_0000

  datatype Option<+T> = None | Some(value: T)

  /** The ways in which reading a buffer fails (the exceptions of exceptions.h). */
  datatype Fault = Truncated | BadIndex(index: nat) | CreatableSent | Corrupt | UnknownSdl

  /** What reading from the front of a buffer gives: a value and the unread rest. */
  datatype Parsed<+T> = Ok(value: T, rest: Bytes) | Fail(why: Fault) {
    predicate IsFailure() { Fail? }

    function PropagateFailure<U>(): Parsed<U>
      requires Fail?
    {
      Fail(why)
    }

    function Extract(): (T, Bytes)
      requires Ok?
    {
      (value, rest)
    }
  }

  predicate HasBit(b: Byte, weight: nat)
    requires weight > 0
  {
    b / weight % 2 == 1
  }

  function Min(a: int, b: int): int { if a <= b then a else b }

  function Le16(x: U16): (b: Bytes)
    ensures |b| == 2
  {
    [x % 0x100, x / 0x100]
  }

  function Le32(x: U32): (b: Bytes)
    ensures |b| == 4
  {
    Le16(x % 0x1_0000) + Le16(x / 0x1_0000)
  }

  function Read16(b: Bytes, at: nat): U16
    requires at + 2 <= |b|
  {
    var lo: int, hi: int := b[at], b[at + 1];
    lo + 0x100 * hi
  }

  function Read32(b: Bytes, at: nat): U32
    requires at + 4 <= |b|
  {
    var lo: int, hi: int := Read16(b, at), Read16(b, at + 2);
    lo + 0x1_0000 * hi
  }

  function Take8(bs: Bytes): Parsed<Byte> {
    if |bs| < 1 then Fail(Truncated) else Ok(bs[0], bs[1..])
  }

  function Take16(bs: Bytes): Parsed<U16> {
    if |bs| < 2 then Fail(Truncated) else Ok(Read16(bs, 0), bs[2..])
  }

  function Take32(bs: Bytes): Parsed<U32> {
    if |bs| < 4 then Fail(Truncated) else Ok(Read32(bs, 0), bs[4..])
  }

  function TakeBytes(bs: Bytes, n: nat): Parsed<Bytes> {
    if |bs| < n then Fail(Truncated) else Ok(bs[..n], bs[n..])
  }

  lemma Take16Le16(x: U16, rest: Bytes)
    ensures Take16(Le16(x) + rest) == Ok(x, rest)
  {
    assert (Le16(x) + rest)[2..] == rest;
  }

  lemma Take32Le32(x: U32, rest: Bytes)
    ensures Take32(Le32(x) + rest) == Ok(x, rest)
  {
    var b := Le32(x) + rest;
    assert b[4..] == rest;
    assert Read16(b, 0) == x % 0x1_0000 && Read16(b, 2) == x / 0x1_0000;
  }

  lemma TakeBytesBack(bs: Bytes, rest: Bytes)
    ensures TakeBytes(bs + rest, |bs|) == Ok(bs, rest)
  {
    assert (bs + rest)[..|bs|] == bs && (bs + rest)[|bs|..] == rest;
  }

  lemma Assoc(a: Bytes, b: Bytes, c: Bytes)
    ensures a + b + c == a + (b + c)
  {
  }

  /** A slice of a concatenation that begins after the first part. */
  lemma SliceOfTail(a: Bytes, b: Bytes, from: nat, to: nat)
    requires |a| <= from <= to <= |a| + |b|
    ensures (a + b)[from..to] == b[from - |a|..to - |a|]
  {
    var ab := a + b;
    var x, y := ab[from..to], b[from - |a|..to - |a|];
    forall i | 0 <= i < |x| ensures x[i] == y[i] {
      assert x[i] == ab[from + i] && y[i] == b[from - |a| + i];
    }
  }

  /** Two slices next to each other. */
  lemma SlicesJoin(s: Bytes, from: nat, mid: nat, to: nat)
    requires from <= mid <= to <= |s|
    ensures s[from..mid] + s[mid..to] == s[from..to]
  {
  }

  /** The concatenation of a list of pieces, in order. */
  function Flat(parts: seq<Bytes>): Bytes {
    if parts == [] then [] else parts[0] + Flat(parts[1..])
  }

  lemma {:induction false} FlatAppend(a: seq<Bytes>, b: seq<Bytes>)
    ensures Flat(a + b) == Flat(a) + Flat(b)
  {
    if a == [] {
      assert a + b == b;
    } else {
      assert (a + b)[1..] == a[1..] + b;
      FlatAppend(a[1..], b);
    }
  }

  /** The buffer has x at position at and is otherwise as it was. */
  ghost predicate Wrote(now: Bytes, was: Bytes, at: nat, x: Bytes) {
    at + |x| <= |was| && now == was[..at] + x + was[at + |x|..]
  }

  ghost predicate SameOutside(now: Bytes, was: Bytes, at: nat, end: nat) {
    at <= end <= |was| == |now| && now[..at] == was[..at] && now[end..] == was[end..]
  }

  lemma WroteMore(was: Bytes, mid: Bytes, now: Bytes, at: nat, x: Bytes, y: Bytes)
    requires Wrote(mid, was, at, x) && Wrote(now, mid, at + |x|, y)
    ensures Wrote(now, was, at, x + y)
  {
    assert mid[..at + |x|] == was[..at] + x;
    assert mid[at + |x| + |y|..] == was[at + |x| + |y|..];
  }

  lemma WroteNothing(was: Bytes, at: nat)
    requires at <= |was|
    ensures Wrote(was, was, at, [])
  {
  }

  lemma WroteInside(now: Bytes, was: Bytes, at: nat, x: Bytes, end: nat)
    requires Wrote(now, was, at, x) && at + |x| <= end <= |was|
    ensures SameOutside(now, was, at, end)
  {
  }

  lemma SpoiltInside(was: Bytes, mid: Bytes, now: Bytes, at: nat, x: Bytes, end: nat)
    requires Wrote(mid, was, at, x) && at + |x| <= end <= |was| && SameOutside(now, mid, at + |x|, end)
    ensures SameOutside(now, was, at, end)
  {
    assert mid[..at + |x|][..at] == was[..at];
    assert now[..at + |x|][..at] == mid[..at + |x|][..at];
  }

  /** memcpy, write16, write32 and single stores: put bs at buf[at..]. */
  method Put(buf: array<Byte>, at: nat, bs: Bytes)
    requires at + |bs| <= buf.Length
    modifies buf
    ensures buf[..] == old(buf[..at]) + bs + old(buf[at + |bs|..])
    ensures Wrote(buf[..], old(buf[..]), at, bs)
  {
    for i := 0 to |bs|
      invariant buf[..] == old(buf[..at]) + bs[..i] + old(buf[at + i..])
    {
      buf[at + i] := bs[i];
    }
  }

  /** One more piece at the moving offset. */
  method Append(buf: array<Byte>, off: nat, y: Bytes, ghost was: Bytes, ghost at: nat, ghost x: Bytes)
    requires off + |y| <= buf.Length && off == at + |x| && Wrote(buf[..], was, at, x)
    modifies buf
    ensures Wrote(buf[..], was, at, x + y)
  {
    ghost var mid := buf[..];
    Put(buf, off, y);
    WroteMore(was, mid, buf[..], at, x, y);
  }
}

/** Sending a manifest file in chunks of whole records (FileTransaction.cc, the branches for
    manifests of the file server). */
module Manifest {
  import opened Wire
  import opened Writers

  const FILE_CHUNK_SIZE := 32768

  predicate RecordsOk(rs: seq<Bytes>) { forall i | 0 <= i < |rs| :: |rs[i]| < 0x1_0000_0000 }

  /** Every record is preceded by its length. */
  function Framed(rs: seq<Bytes>): Bytes
    requires RecordsOk(rs)
  {
    if rs == [] then [] else Le32(|rs[0]|) + (rs[0] + Framed(rs[1..]))
  }

  lemma {:induction false} FramedAppend(a: seq<Bytes>, b: seq<Bytes>)
    requires RecordsOk(a) && RecordsOk(b)
    ensures RecordsOk(a + b) && Framed(a + b) == Framed(a) + Framed(b)
  {
    if a == [] {
      assert a + b == b;
    } else {
      assert (a + b)[1..] == a[1..] + b;
      FramedAppend(a[1..], b);
      Assoc(a[0], Framed(a[1..]), Framed(b));
      Assoc(Le32(|a[0]|), a[0] + Framed(a[1..]), Framed(b));
    }
  }

  /** How many records a chunk takes. */
  function Fitting(rs: seq<Bytes>, limit: nat): (k: nat)
    ensures k <= |rs|
  {
    if rs == [] || |rs[0]| > limit then 0 else 1 + Fitting(rs[1..], limit - |rs[0]|)
  }

  /** A chunk is as long as it can be. */
  lemma {:induction false} FittingIsGreedy(rs: seq<Bytes>, limit: nat)
    ensures
      var k := Fitting(rs, limit);
      && |Flat(rs[..k])| <= limit
      && (k < |rs| ==> |Flat(rs[..k + 1])| > limit)
    decreases rs
  {
    var k := Fitting(rs, limit);
    if rs != [] && |rs[0]| <= limit {
      FittingIsGreedy(rs[1..], limit - |rs[0]|);
      assert rs[..k][1..] == rs[1..][..k - 1];
      if k < |rs| {
        assert rs[..k + 1][1..] == rs[1..][..k];
      }
    } else if rs != [] {
      assert rs[..1][1..] == [];
    }
  }

  lemma {:induction false} FittingOfShort(rs: seq<Bytes>, limit: nat, all: nat)
    requires |Flat(rs)| <= all
    ensures Fitting(rs, Min(limit, all)) == Fitting(rs, limit)
    decreases rs
  {
    if rs != [] && |rs[0]| <= limit {
      FittingOfShort(rs[1..], limit - |rs[0]|, all - |rs[0]|);
    }
  }

  lemma {:induction false} FlatShorter(rs: seq<Bytes>)
    requires RecordsOk(rs)
    ensures |Framed(rs)| == |Flat(rs)| + 4 * |rs|
  {
    if rs != [] {
      FlatShorter(rs[1..]);
    }
  }

  /** The scan of chunk_acked over any bytes: how far it gets, and how much of that is data.  The
      first component goes past the end if the last record is cut off. */
  function Scan(b: Bytes, limit: nat): (nat, nat)
    decreases |b|
  {
    if |b| < 4 then (0, 0)
    else
      var n := Read32(b, 0);
      if n > limit then (0, 0)
      else if 4 + n > |b| then (4 + n, n)
      else
        var (off, len) := Scan(b[4 + n..], limit - n);
        (4 + n + off, n + len)
  }

  lemma FirstFrame(rs: seq<Bytes>)
    requires RecordsOk(rs) && rs != []
    ensures
      var b := Framed(rs);
      && 4 + |rs[0]| <= |b| && Read32(b, 0) == |rs[0]|
      && b[4..4 + |rs[0]|] == rs[0] && b[4 + |rs[0]|..] == Framed(rs[1..])
  {
    Take32Le32(|rs[0]|, rs[0] + Framed(rs[1..]));
    var tail := Framed(rs)[4..];
    assert tail == rs[0] + Framed(rs[1..]);
    assert Framed(rs)[4 + |rs[0]|..] == tail[|rs[0]|..];
  }

  /** On a well-formed file the scan ends exactly at a record boundary. */
  lemma {:induction false} ScanStopsBetweenRecords(rs: seq<Bytes>, limit: nat)
    requires RecordsOk(rs)
    ensures
      var chunk := rs[..Fitting(rs, limit)];
      Scan(Framed(rs), limit) == (|Framed(chunk)|, |Flat(chunk)|)
    decreases rs
  {
    hide Le32, Read32;
    if rs != [] {
      FirstFrame(rs);
      if |rs[0]| <= limit {
        ScanStopsBetweenRecords(rs[1..], limit - |rs[0]|);
        assert rs[..Fitting(rs, limit)][1..] == rs[1..][..Fitting(rs[1..], limit - |rs[0]|)];
      }
    }
  }

  /** The j-th record in the file. */
  lemma FrameAt(rs: seq<Bytes>, j: nat)
    requires RecordsOk(rs) && j < |rs|
    ensures
      var b, at, n := Framed(rs), |Framed(rs[..j])|, |rs[j]|;
      && at + 4 + n <= |b| && Read32(b, at) == n && b[at + 4..at + 4 + n] == rs[j]
      && at + 4 + n == |Framed(rs[..j + 1])|
  {
    hide Le32, Read32, Framed;
    var b, at, n := Framed(rs), |Framed(rs[..j])|, |rs[j]|;
    assert rs == rs[..j] + rs[j..];
    FramedAppend(rs[..j], rs[j..]);
    FirstFrame(rs[j..]);
    assert b[at..] == Framed(rs[j..]);
    ReadFrom(b, at);
    InRest(b, at, 4, 4 + n);
    assert rs[..j + 1] == rs[..j] + [rs[j]];
    FramedAppend(rs[..j], [rs[j]]);
    FirstFrame([rs[j]]);
    var none: seq<Bytes> := [];
    assert [rs[j]][1..] == none;
    FramedEmpty();
    assert Framed([rs[j]])[4 + n..] == [];
  }

  lemma InRest(b: Bytes, at: nat, from: nat, to: nat)
    requires from <= to && at + to <= |b|
    ensures b[at..][from..to] == b[at + from..at + to]
  {
  }

  /** A manifest file consists of a record count and records.  The chunk in progress is chunk
      records from the first-th on. */
  class Transaction {
    const file: Bytes
    ghost const records: seq<Bytes>
    ghost var first: nat
    var offset: nat
    var chunkRemaining: nat
    var realOffset: nat

    ghost predicate WellFormed()
    {
      RecordsOk(records) && exists count: U32 :: file == Le32(count) + Framed(records)
    }

    ghost function Chunk(): seq<Bytes>
      requires first <= |records|
      reads this
    {
      records[first..][..Fitting(records[first..], FILE_CHUNK_SIZE)]
    }

    /** The bytes of the chunk's records. */
    ghost function Payload(): Bytes
      requires first <= |records|
      reads this
    {
      Flat(Chunk())
    }

    ghost predicate Valid()
      reads this
    {
      && WellFormed() && first <= |records|
      && offset == 4 + |Framed(records[..first])|
      && chunkRemaining == |Payload()|
      && (first < |records| ==> realOffset == |Framed(Chunk())|)
    }

    constructor (file: Bytes, count: U32, ghost records: seq<Bytes>)
      requires RecordsOk(records) && file == Le32(count) + Framed(records)
      ensures Valid() && this.file == file && this.records == records && first == 0
      ensures FileComplete() <==> records == []
    {
      this.file, this.records := file, records;
      offset, realOffset, chunkRemaining, first := 0, 4, 0, 0;
      new;
      assert records[..0] == [];
      ChunkAcked(0);
    }

    predicate FileComplete()
      reads this
    {
      offset >= |file|
    }

    predicate InLastChunk()
      reads this
    {
      offset + realOffset >= |file|
    }

    /** chunk_acked: the scan that finds the next chunk. */
    method ScanChunk(limit: nat) returns (off: nat, len: nat)
      requires offset <= |file|
      ensures off == Min(Scan(file[offset..], limit).0, |file| - offset) && len == Scan(file[offset..], limit).1
    {
      hide Read32;
      var buf, total := file[offset..], |file| - offset;
      off, len := 0, 0;
      while off + 4 <= total
        invariant len <= limit
        invariant off <= total ==>
          Scan(buf, limit) == (off + Scan(buf[off..], limit - len).0, len + Scan(buf[off..], limit - len).1)
        invariant off > total ==> Scan(buf, limit) == (off, len)
        decreases total - off
      {
        var n := Read32(buf, off);
        ReadFrom(buf, off);
        if n + len > limit {
          break;
        }
        assert off + 4 + n <= total ==> buf[off..][4 + n..] == buf[off + 4 + n..];
        len := len + n;
        off := off + n + 4;
      }
      if off > total {
        off := total;
      }
    }

    /** The next chunk is the longest run of whole records that fits. */
    method ChunkAcked(ghost next: nat)
      requires WellFormed() && next <= |records| && offset + realOffset == 4 + |Framed(records[..next])|
      modifies this
      ensures Valid() && first == next && offset == old(offset + realOffset)
      ensures FileComplete() <==> first == |records|
      ensures !FileComplete() ==>
        && (InLastChunk() <==> first + |Chunk()| == |records|)
        && (realOffset > 0 <==> |records[first]| <= FILE_CHUNK_SIZE)
    {
      hide Le32, Framed, Flat, Scan;
      first := next;
      ghost var rest := records[first..];
      WhatIsLeft(file, records, first);
      FlatOfNone();
      offset := offset + realOffset;
      if FileComplete() {
        chunkRemaining := 0;
        assert rest == [];
        return;
      }
      chunkRemaining := FILE_CHUNK_SIZE;
      if |file| - offset < chunkRemaining {
        chunkRemaining := |file| - offset;
      }
      FlatShorter(rest);
      FittingOfShort(rest, FILE_CHUNK_SIZE, |file| - offset);
      ScanStopsBetweenRecords(rest, chunkRemaining);
      FramedGrows(rest, Fitting(rest, FILE_CHUNK_SIZE), |rest|);
      FramedGrows(rest, 0, Fitting(rest, FILE_CHUNK_SIZE));
      FramedEmpty();
      assert rest[..|rest|] == rest;
      realOffset, chunkRemaining := ScanChunk(chunkRemaining);
    }

    /** Pieces of the records' data, the lengths left out, from any position; and how far that is
        behind the data. */
    method FillIovecs(limit: nat, start: nat) returns (vecs: seq<Bytes>, start': nat)
      requires Valid() && !FileComplete()
      ensures if start <= chunkRemaining then VecsOk(vecs, limit, Payload()[start..]) else vecs == []
      ensures |vecs| < limit ==> start' == if start <= chunkRemaining then 0 else start - chunkRemaining
      ensures vecs != [] <==> limit > 0 && start < chunkRemaining
      ensures vecs != [] ==> Flat(vecs) != []
    {
      hide Le32, Read32, Framed, Rest, Fitting, Flat;
      ghost var rs, all := Chunk(), records[first..];
      WhatIsLeft(file, records, first);
      if start <= chunkRemaining {
        StartsAtFront(rs, start);
      }
      assert all[..0] == [] && rs[..0] == [] && rs[..|rs|] == rs;
      FramedEmpty();
      FlatOfNone();
      var theBuf, tmp := file[offset..], 0;
      vecs, start' := [], start;
      ghost var j := 0;
      while |vecs| < limit && tmp < realOffset
        invariant j <= |rs| && tmp == |Framed(all[..j])| && |vecs| <= limit
        invariant if start <= chunkRemaining then
                    && start' <= |Flat(rs[j..])| && Payload()[start..] == Flat(vecs) + Rest(rs, j, start')
                    && (vecs != [] ==> Flat(vecs) != [])
                  else vecs == [] && start' == start - |Flat(rs[..j])|
        decreases |rs| - j
      {
        assert j < |rs|;
        FrameAt(all, j);
        var n := Read32(theBuf, tmp);
        if start <= chunkRemaining {
          NextPiece(rs, j, start', vecs);
        } else {
          FlatNext(rs, j);
          FlatGrows(rs, j + 1, |rs|);
        }
        if start' >= n {
          start' := start' - n;
        } else {
          PieceOf(theBuf, tmp + 4, rs[j], start');
          VecsMore(vecs, rs[j][start'..]);
          vecs, start' := vecs + [theBuf[tmp + 4 + start'..tmp + 4 + n]], 0;
        }
        tmp, j := tmp + 4 + n, j + 1;
      }
      FramedGrows(all, j, |rs|);
      assert rs[|rs|..] == [];
      NoRest(rs);
    }

    /** What is left of a count of written bytes, and whether the chunk is finished.  A chunk that
        ends in an empty record is only finished by a byte too many. */
    method IovecsWrittenBytes(count: nat, start: nat) returns (left: nat, done: bool)
      requires Valid() && !FileComplete()
      ensures done <==> if count == 0 then Chunk() == [] else
                          start + count > chunkRemaining
                          || (start + count == chunkRemaining && |Chunk()| > 0 && Chunk()[|Chunk()| - 1] != [])
      ensures left == if done then count - (if start <= chunkRemaining then chunkRemaining - start else 0) else 0
    {
      hide Le32, Read32, Framed, Fitting, Flat;
      ghost var rs, all := Chunk(), records[first..];
      WhatIsLeft(file, records, first);
      assert all[..0] == [] && rs[..0] == [] && rs[..|rs|] == rs;
      FramedEmpty();
      FlatOfNone();
      var theBuf, tmp, byteCt: int, pos: nat := file[offset..], 0, count, start;
      ghost var j := 0;
      while tmp < realOffset && byteCt > 0
        invariant j <= |rs| && tmp == |Framed(all[..j])|
        invariant if |Flat(rs[..j])| <= start then pos == start - |Flat(rs[..j])| && byteCt == count
                  else pos == 0 && byteCt == count - (|Flat(rs[..j])| - start)
        invariant j > 0 ==> |Flat(rs[..j - 1])| < start + count && count > 0
        decreases |rs| - j
      {
        assert j < |rs|;
        FrameAt(all, j);
        FlatNext(rs, j);
        var n := Read32(theBuf, tmp);
        if pos >= n {
          pos := pos - n;
        } else {
          byteCt, pos := byteCt - (n - pos), 0;
        }
        tmp, j := tmp + 4 + n, j + 1;
      }
      FramedGrows(all, j, |rs|);
      if rs != [] {
        FlatNext(rs, |rs| - 1);
        FlatGrows(rs, j, |rs| - 1);
        FlatGrows(rs, j, |rs|);
      }
      if tmp >= realOffset && byteCt >= 0 {
        left, done := byteCt, true;
      } else {
        left, done := 0, false;
      }
    }
  }

  lemma FlatNext(rs: seq<Bytes>, j: nat)
    requires j < |rs|
    ensures Flat(rs[..j + 1]) == Flat(rs[..j]) + rs[j]
  {
    assert rs[..j + 1] == rs[..j] + [rs[j]];
    VecsMore(rs[..j], rs[j]);
  }

  lemma FlatGrows(rs: seq<Bytes>, j: nat, k: nat)
    requires j <= |rs| && k <= |rs|
    ensures j <= k ==> Flat(rs[..j]) <= Flat(rs[..k])
  {
    if j <= k {
      assert rs[..k] == rs[..j] + rs[j..k];
      FlatAppend(rs[..j], rs[j..k]);
    }
  }

  // ---------- Where records lie ----------

  lemma ReadFrom(b: Bytes, at: nat)
    requires at + 4 <= |b|
    ensures Read32(b, at) == Read32(b[at..], 0)
  {
  }

  lemma FramedEmpty()
    ensures Framed([]) == []
  {
  }

  lemma WhatIsLeft(file: Bytes, rs: seq<Bytes>, k: nat)
    requires RecordsOk(rs) && k <= |rs| && exists count: U32 :: file == Le32(count) + Framed(rs)
    ensures
      var at := 4 + |Framed(rs[..k])|;
      at <= |file| && file[at..] == Framed(rs[k..]) && (at == |file| <==> k == |rs|)
  {
    hide Le32;
    var count: U32 :| file == Le32(count) + Framed(rs);
    assert file[4..] == Framed(rs);
    assert rs == rs[..k] + rs[k..];
    FramedAppend(rs[..k], rs[k..]);
    assert file[4 + |Framed(rs[..k])|..] == Framed(rs)[|Framed(rs[..k])|..];
  }

  lemma FramedGrows(rs: seq<Bytes>, j: nat, k: nat)
    requires RecordsOk(rs) && j <= k <= |rs|
    ensures |Framed(rs[..j])| <= |Framed(rs[..k])| && (|Framed(rs[..j])| == |Framed(rs[..k])| <==> j == k)
  {
    hide Le32;
    assert rs[..k] == rs[..j] + rs[j..k];
    FramedAppend(rs[..j], rs[j..k]);
  }

  lemma PieceOf(b: Bytes, at: nat, r: Bytes, from: nat)
    requires at + |r| <= |b| && b[at..at + |r|] == r && from <= |r|
    ensures b[at + from..at + |r|] == r[from..]
  {
    assert b[at..at + |r|][from..] == b[at + from..at + |r|];
  }

  // ---------- Whole manifests ----------

  /** From one position in a chunk of k records to a later one, and to the next chunk. */
  lemma OneMore(rs: seq<Bytes>, first: nat, k: nat, start: nat, n: nat)
    requires RecordsOk(rs) && first + k <= |rs| && start + n <= |Flat(rs[first..][..k])|
    ensures
      var chunk := rs[first..][..k];
      && Flat(rs[..first]) + Flat(chunk)[..start] + Flat(chunk)[start..start + n]
         == Flat(rs[..first]) + Flat(chunk)[..start + n]
      && Flat(rs[..first]) + Flat(chunk)[..start + n] <= Flat(rs)
      && Flat(rs[..first]) + Flat(chunk) == Flat(rs[..first + k])
      && |Framed(rs[..first])| + |Framed(chunk)| == |Framed(rs[..first + k])|
  {
    hide Flat, Framed;
    var chunk := rs[first..][..k];
    assert rs[..first + k] == rs[..first] + chunk;
    FlatAppend(rs[..first], chunk);
    FramedAppend(rs[..first], chunk);
    assert rs == rs[..first + k] + rs[first + k..];
    FlatAppend(rs[..first + k], rs[first + k..]);
    assert Flat(chunk)[..start] + Flat(chunk)[start..start + n] == Flat(chunk)[..start + n];
  }
}

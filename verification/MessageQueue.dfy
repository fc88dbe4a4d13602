/** The queue of messages waiting to be written to one connection (MessageQueue.cc). */
module MessageQueue {
  import opened Wire
  import opened Writers
  import opened QueueLine

  /** What was written of finished messages. */
  ghost predicate Recorded(sent: seq<Message>, gone: seq<Bytes>) {
    && |gone| == |sent|
    && forall i | 0 <= i < |sent| ::
         gone[i] == Encoding(sent[i]) || (HeaderOnly(sent[i]) && gone[i] < Encoding(sent[i]))
  }

  ghost predicate AllWhole(sent: seq<Message>, gone: seq<Bytes>) {
    |gone| == |sent| && forall i | 0 <= i < |sent| :: gone[i] == Encoding(sent[i])
  }

  lemma FinishOne(sent: seq<Message>, gone: seq<Bytes>, m: Message, k: nat)
    requires Recorded(sent, gone) && k <= |Encoding(m)| && (k < |Encoding(m)| ==> HeaderOnly(m))
    ensures
      var sent', gone' := sent + [m], gone + [Encoding(m)[..k]];
      && Recorded(sent', gone')
      && (AllWhole(sent', gone') <==> AllWhole(sent, gone) && k == |Encoding(m)|)
  {
    hide Encoding, HeaderOnly;
    var sent', gone' := sent + [m], gone + [Encoding(m)[..k]];
    assert Encoding(m)[..|Encoding(m)|] == Encoding(m);
    assert sent'[|sent|] == m && gone'[|sent|] == Encoding(m)[..k];
    if AllWhole(sent', gone') {
      forall i | 0 <= i < |sent| ensures gone[i] == Encoding(sent[i]) {
        assert sent'[i] == sent[i] && gone'[i] == gone[i];
      }
    }
  }

  lemma {:induction false} WholeStream(sent: seq<Message>, gone: seq<Bytes>)
    requires AllWhole(sent, gone)
    ensures Flat(gone) == Encodings(sent)
  {
    hide Encoding;
    if sent != [] {
      WholeStream(sent[1..], gone[1..]);
    }
  }

  // ---------- The line in the queue ----------

  /** The messages of which something is left. */
  function Live(items: seq<Item>): seq<Item> {
    if items == [] then []
    else (if LeftOf(items[0]) == [] then [] else [items[0]]) + Live(items[1..])
  }

  lemma NoneLive()
    ensures Live([]) == []
  {
  }

  lemma LiveHead(it: Item, rest: seq<Item>)
    ensures Live([it] + rest) == (if LeftOf(it) == [] then [] else [it]) + Live(rest)
  {
    hide LeftOf;
    assert ([it] + rest)[1..] == rest;
  }

  lemma {:induction false} LiveAppend(items: seq<Item>, it: Item)
    ensures Live(items + [it]) == Live(items) + if LeftOf(it) == [] then [] else [it]
  {
    hide LeftOf;
    var end := if LeftOf(it) == [] then [] else [it];
    if items == [] {
      NoneLive();
      LiveHead(it, []);
      assert [it] + [] == [it] && items + [it] == [it] && end + [] == end && [] + end == end;
    } else {
      var first := if LeftOf(items[0]) == [] then [] else [items[0]];
      assert (items + [it])[1..] == items[1..] + [it];
      LiveAppend(items[1..], it);
      assert first + (Live(items[1..]) + end) == first + Live(items[1..]) + end;
    }
  }

  lemma {:induction false} LiveIs(items: seq<Item>)
    requires ItemsOk(items) && Behind(items)
    ensures LiveOk(Live(items)) && Unsent(Live(items)) == Unsent(items)
    ensures Fresh(items) ==> Fresh(Live(items))
    ensures items != [] && LeftOf(items[0]) != [] ==> Live(items) != [] && Live(items)[0] == items[0]
    ensures items == [] || LeftOf(items[0]) == [] ==> Fresh(Live(items))
  {
    hide ItemOk, LeftOf, Unsent;
    NoneUnsent();
    if items != [] {
      var it, rest := items[0], items[1..];
      LiveIs(rest);
      assert items == [it] + rest && Fresh(rest);
      UnsentFirst(it, rest);
      if LeftOf(it) != [] {
        LiveFirst(it, Live(rest));
        UnsentFirst(it, Live(rest));
      } else {
        assert [] + Live(rest) == Live(rest) && [] + Unsent(rest) == Unsent(rest);
      }
    }
  }

  lemma LiveCleared(items: seq<Item>)
    requires ItemsOk(items) && Behind(items)
    ensures Live(if items != [] && items[0].soFar != 0 then items[..1] else []) == Cleared(Live(items))
  {
    hide ItemOk, LeftOf;
    LiveIs(items);
    if items != [] {
      assert items[..1] == [items[0]] + [] && items == [items[0]] + items[1..];
      LiveHead(items[0], []);
      LiveHead(items[0], items[1..]);
    }
  }

  /** Writing k more bytes of the first message takes them from the line. */
  lemma LiveTakes(it: Item, rest: seq<Item>, k: nat)
    requires ItemOk(it) && ItemsOk(rest) && Fresh(rest) && k <= |LeftOf(it)|
    ensures Live([it.(soFar := it.soFar + k)] + rest) == Take(Live([it] + rest), k)
    ensures k == |LeftOf(it)| ==> Live(rest) == Take(Live([it] + rest), k)
  {
    hide ItemOk, LeftOf;
    var it', live := it.(soFar := it.soFar + k), Live(rest);
    LeftLater(it, k);
    LiveHead(it, rest);
    LiveHead(it', rest);
    assert [] + live == live && ([it] + live)[1..] == live;
  }

  /** How many pieces the messages have in all. */
  function Pieces(items: seq<Item>): nat {
    if items == [] then 0 else MaxPieces(items[0].msg) + Pieces(items[1..])
  }

  lemma {:induction false} PiecesAppend(a: seq<Item>, b: seq<Item>)
    ensures Pieces(a + b) == Pieces(a) + Pieces(b)
  {
    hide MaxPieces;
    if a == [] {
      assert a + b == b;
    } else {
      assert (a + b)[1..] == a[1..] + b;
      PiecesAppend(a[1..], b);
    }
  }

  lemma PiecesOfOne(it: Item)
    ensures Pieces([it]) == MaxPieces(it.msg)
  {
    assert [it][1..] == [];
  }

  lemma TakeNone(live: seq<Item>)
    ensures Take(live, 0) == live
  {
  }

  lemma StartedIs(items: seq<Item>)
    requires ItemsOk(items) && items != []
    ensures Started(items) == Encoding(items[0].msg)[..items[0].soFar]
  {
    hide Encoding, MessageOk, LengthTrue;
  }

  lemma JoinUp(whole: Bytes, y: Bytes, x: Bytes, end: Bytes, tail: Bytes)
    requires y <= x && whole == y + (x[|y|..] + (end + tail))
    ensures whole == x + (end + tail) && (end == [] ==> whole == x + tail)
  {
    assert x == y + x[|y|..];
    Assoc(y, x[|y|..], end + tail);
    assert end == [] ==> end + tail == tail;
  }

  lemma Remainder(it: Item)
    requires ItemOk(it)
    ensures LeftOf(it) == Encoding(it.msg)[it.soFar..]
  {
    hide Encoding, MessageOk, LengthTrue;
  }

  lemma CutInLine(items: seq<Item>, len: nat)
    requires ItemsOk(items) && Behind(items)
    ensures CutOff(Live(items), len) <==> CutOff(items, len)
    ensures CutOff(items, len) ==> LeftOf(items[0]) != [] && Live(items) != [] && Live(items[1..]) == Live(items)[1..]
  {
    hide MessageOk, LengthTrue, HeaderOnly;
    LiveIs(items);
    if CutOff(items, len) {
      BareHeader(items[0].msg);
    }
  }

  lemma BareHeader(m: Message)
    requires MessageOk(m) && HeaderOnly(m)
    ensures |Encoding(m)| == 16
  {
  }

  /** One message more has written what it could of the room that was left. */
  lemma OneTurn(live: seq<Item>, n: nat, it: Item, len: nat, filled: nat)
    requires LiveOk(live) && n < len && n + filled <= |Unsent(live)| && (n > 0 ==> live != [] && !Stuck(live[0], len))
    requires LeftOf(it) == [] ==> filled == 0
    requires LeftOf(it) != [] ==> Take(live, n) != [] && Take(live, n)[0] == it && (filled == 0 <==> Stuck(it, len - n))
    ensures Take(Take(live, n), filled) == Take(live, n + filled)
    ensures n + filled > 0 ==> live != [] && !Stuck(live[0], len)
    ensures LeftOf(it) != [] && n + filled == 0 ==> live != [] && Stuck(live[0], len)
    ensures LeftOf(it) != [] && AllPrompt(live) ==> Prompt(it.msg)
  {
    hide Stuck, LeftOf, Unsent, LiveOk, Prompt;
    TakeMore(live, n, filled);
    TakeNone(live);
    TakePrompt(live, n);
  }

  lemma {:induction false} TakePrompt(live: seq<Item>, n: nat)
    ensures AllPrompt(live) ==> AllPrompt(Take(live, n))
    decreases live
  {
    hide LeftOf, Prompt;
    if n > 0 && live != [] && n >= |LeftOf(live[0])| {
      TakePrompt(live[1..], n - |LeftOf(live[0])|);
    }
  }

  lemma TakesWrite(l: QueueLine.Line, len: nat, n: nat)
    requires n <= Min(len, |Unsent(l.live)|) && (CutOff(l.live, len) ==> n == len)
    requires n > 0 ==> l.live != [] && !Stuck(l.live[0], len)
    requires n == 0 ==> len == 0 || l.live == [] || Stuck(l.live[0], len)
    requires AllPrompt(l.live) ==> n == Min(len, |Unsent(l.live)|)
    ensures forall pieces :: Takes(l, Write(len), n, pieces)
    ensures Step(l, Write(len), n)
            == QueueLine.Line(l.out + Unsent(l.live)[..n], if CutOff(l.live, len) then l.live[1..] else Take(l.live, n))
  {
    hide Stuck, AllPrompt, CutOff, Unsent, Take;
  }

  class Queue {
    var items: seq<Item>
    // what the connection has been given: the messages finished, what was written of each, and
    // every byte
    ghost var sent: seq<Message>
    ghost var gone: seq<Bytes>
    ghost var emitted: Bytes
    // every message accepted and not thrown out again, in order
    ghost var accepted: seq<Message>

    /** The bytes given out are those of the finished messages in the order they were accepted,
        followed by the part of the first waiting one that it has on record; all others are
        untouched.  Only a header with nothing behind it may be finished too early. */
    ghost predicate Valid()
      reads this
    {
      && ItemsOk(items)
      && Behind(items)
      && emitted == Flat(gone) + Started(items)
      && accepted == sent + Messages(items)
      && Recorded(sent, gone)
    }

    /** What the queue is for its connection. */
    ghost function Line(): QueueLine.Line
      reads this
    {
      QueueLine.Line(emitted, Live(items))
    }

    ghost predicate Whole()
      reads this
    {
      AllWhole(sent, gone)
    }

    constructor ()
      ensures Valid() && items == [] && emitted == [] && accepted == []
    {
      items, sent, gone, emitted, accepted := [], [], [], [], [];
    }

    /** enqueue; front is the FRONT priority.  A message put before one that has been started comes
        in the middle of it, so the stream is broken exactly then. */
    method Enqueue(msg: Message, front: bool)
      requires Valid() && MessageOk(msg) && LengthTrue(msg)
      modifies this`items, this`accepted
      ensures Messages(items) == if front then [msg] + old(Messages(items)) else old(Messages(items)) + [msg]
      ensures items == if front then [Item(msg, 0)] + old(items) else old(items) + [Item(msg, 0)]
      ensures Valid() <==> !(front && old(HeadStarted()))
      ensures Valid() ==>
                && accepted == sent + Messages(items) && sent == old(sent)
                && Line() == Step(old(Line()), Add(msg, front), 0) && !Overtakes(old(Line()).live, Add(msg, front))
                && Unsent(items) == if front then Encoding(msg) + old(Unsent(items))
                     else old(Unsent(items)) + Encoding(msg)
    {
      hide Encoding, MessageOk, LengthTrue, Flat, Unsent, Recorded, WrittenOf, LeftOf, Live;
      ghost var it := Item(msg, 0);
      LeftWhole(msg);
      StartedWhenAdded(items, msg);
      LiveIs(items);
      if front {
        UnsentFirst(it, items);
        LiveHead(it, items);
        assert [] + Live(items) == Live(items);
        assert Messages([it] + items) == [msg] + Messages(items);
        assert items != [] ==> ([it] + items)[1] == items[0];
        items := [Item(msg, 0)] + items;
      } else {
        UnsentAppend(items, it);
        LiveAppend(items, it);
        assert Live(items) + [] == Live(items);
        assert Messages(items + [it]) == Messages(items) + [msg];
        items := items + [Item(msg, 0)];
      }
      accepted := sent + Messages(items);
    }

    predicate HeadStarted()
      reads this
    {
      items != [] && items[0].soFar != 0
    }

    /** A message that has been started is not thrown out. */
    method ClearQueue()
      requires Valid()
      modifies this`items, this`accepted
      ensures Valid()
      ensures items == if old(items) != [] && old(items[0].soFar) != 0 then old(items[..1]) else []
      ensures accepted == sent + Messages(items) && Line() == Step(old(Line()), Clear, 0)
      ensures Pieces(items) <= old(Pieces(items))
    {
      hide ItemOk, Recorded, MaxPieces, WrittenOf, Live, Flat;
      LiveCleared(items);
      StartedWhenCleared(items);
      if |items| == 0 {
        return;
      }
      ghost var before := items;
      assert before == before[..1] + before[1..];
      PiecesAppend(before[..1], before[1..]);
      items := if items[0].soFar != 0 then items[..1] else [];
      assert items == [] || Messages(items) == [old(Messages(items))[0]];
      accepted := sent + Messages(items);
    }

    /** The head has been written up to soFar + k; a finished message is dropped. */
    method Advance(k: nat, done: bool, ghost before: Bytes, ghost x: Bytes) returns (ghost x': Bytes)
      requires Valid() && items != [] && items[0].soFar + k <= |Encoding(items[0].msg)|
      requires done ==> items[0].soFar + k == |Encoding(items[0].msg)| || HeaderOnly(items[0].msg)
      requires emitted == before + x
      modifies this
      ensures Valid() && accepted == old(accepted)
      ensures Pieces(items) <= old(Pieces(items))
      ensures Live(items) == if done && old(items[0].soFar + k < |Encoding(items[0].msg)|) then old(Live(items[1..]))
                             else Take(old(Live(items)), k)
      ensures x' == x + old(Encoding(items[0].msg)[items[0].soFar..items[0].soFar + k]) && emitted == before + x'
      ensures old(Unsent(items)) == x'[|x|..] + old(Encoding(items[0].msg)[items[0].soFar + k..] + Unsent(items[1..]))
      ensures if done then
                && items == old(items[1..])
                && (Whole() <==> old(Whole() && items[0].soFar + k == |Encoding(items[0].msg)|))
              else
                && |items| == |old(items)| && Messages(items) == old(Messages(items)) && (Whole() <==> old(Whole()))
                && Unsent(items) == old(Encoding(items[0].msg)[items[0].soFar + k..] + Unsent(items[1..]))
    {
      hide Encoding, MessageOk, LengthTrue, Unsent, Flat, HeaderOnly, Recorded, AllWhole, Live, Take, Pieces, Started,
        LeftOf;
      var it, rest := items[0], items[1..];
      ghost var enc := Encoding(it.msg);
      ghost var piece := enc[it.soFar..it.soFar + k];
      assert items == [it] + rest;
      StartedIs(items);
      Remainder(it);
      Advances(it, rest, k, gone, emitted);
      LiveTakes(it, rest, k);
      PiecesAppend([it], rest);
      PiecesAppend([it.(soFar := it.soFar + k)], rest);
      PiecesOfOne(it);
      PiecesOfOne(it.(soFar := it.soFar + k));
      Assoc(before, x, piece);
      x' := x + piece;
      assert x'[|x|..] == piece;
      emitted := emitted + piece;
      if done {
        MessagesTail(items);
        FinishOne(sent, gone, it.msg, it.soFar + k);
        sent, gone := sent + [it.msg], gone + [enc[..it.soFar + k]];
        items := rest;
      } else {
        items := [it.(soFar := it.soFar + k)] + rest;
        StartedIs(items);
        assert Messages(items) == old(Messages(items));
      }
    }

    /** One turn of fill_buffer: the first message writes into the room that is left. */
    method WriteHead(buf: array<Byte>, at: nat, len: nat, n: nat, ghost was: Bytes, ghost before: Bytes, ghost x: Bytes,
                     ghost live: seq<Item>)
      returns (n': nat, done: bool, ghost x': Bytes)
      requires Valid() && items != [] && n < len && at + len <= buf.Length
      requires |x| == n && Wrote(buf[..], was, at, x) && emitted == before + x
      requires LiveOk(live) && Live(items) == Take(live, n) && n + |Unsent(items)| == |Unsent(live)|
      requires n > 0 ==> live != [] && !Stuck(live[0], len)
      modifies this, buf
      ensures Valid() && accepted == old(accepted) && n <= n' <= len && Pieces(items) <= old(Pieces(items))
      ensures |x'| == n' && Wrote(buf[..], was, at, x') && emitted == before + x'
      ensures done ==> items == old(items[1..])
      ensures Whole() <==> old(Whole()) && !old(CutOff(items, len - n))
      ensures if old(CutOff(items, len - n)) then
                done && n' == len && x' <= x + old(Unsent(items))
              else x + old(Unsent(items)) == x' + Unsent(items) && Live(items) == Take(live, n')
      ensures n' > 0 ==> live != [] && !Stuck(live[0], len)
      ensures !done ==> (n' == 0 ==> live != [] && Stuck(live[0], len)) && (AllPrompt(live) ==> n' == len)
    {
      hide Wrote, FillOk, Encoding, MessageOk, LengthTrue, Prompt, Started, Flat, HeaderOnly, Unsent, Recorded,
          AllWhole,
        Live, Take, Pieces, Stuck, LeftOf, AllPrompt, LiveOk;
      var it, rest := items[0], items[1..];
      ghost var mid, tail := buf[..], Unsent(rest);
      LiveIs(items);
      Remainder(it);
      var filled;
      filled, done := Fill(it.msg, buf, at + n, len - n, it.soFar);
      FillGives(it.msg, len - n, it.soFar, filled, done);
      Given(buf[..], was, mid, at, x, Encoding(it.msg), it.soFar, filled);
      ghost var end := Encoding(it.msg)[it.soFar + filled..];
      x' := Advance(filled, done, before, x);
      ghost var y := x'[|x|..];
      Assoc(x, y, end + tail);
      assert x' == x + y;
      assert end == [] ==> end + tail == tail;
      OneTurn(live, n, it, len, filled);
      n' := n + filled;
    }

    /** Fill a buffer and take what it holds as written.  All goes well exactly unless the header of
        a message that has nothing else is cut off once more. */
    method FillBuffer(buf: array<Byte>, at: nat, len: nat) returns (n: nat)
      requires Valid() && at + len <= buf.Length
      modifies this, buf
      ensures Valid() && accepted == old(accepted)
      ensures n <= len && n <= |old(Unsent(items))|
      ensures Wrote(buf[..], old(buf[..]), at, old(Unsent(items))[..n])
      ensures emitted == old(emitted) + old(Unsent(items))[..n]
      ensures Whole() <==> old(Whole()) && !old(CutOff(items, len))
      ensures old(CutOff(items, len)) ==> n == len && items == old(items[1..])
      ensures !old(CutOff(items, len)) ==> Unsent(items) == old(Unsent(items))[n..]
      ensures Pieces(items) <= old(Pieces(items))
      ensures Line() == Step(old(Line()), Write(len), n) && forall pieces :: Takes(old(Line()), Write(len), n, pieces)
    {
      hide Wrote, ItemOk, Prompt, Started, Flat, HeaderOnly, Recorded, AllWhole, Unsent, Live, Take, Pieces, Stuck,
        LeftOf, Takes, AllPrompt, LiveOk, Step;
      ghost var was, whole, before, x: Bytes := buf[..], Unsent(items), emitted, [];
      ghost var cut, live := CutOff(items, len), Live(items);
      LiveIs(items);
      CutInLine(items, len);
      TakeNone(live);
      WroteNothing(was, at);
      n := 0;
      while n < len && items != []
        invariant Valid() && accepted == old(accepted) && Pieces(items) <= old(Pieces(items))
        invariant n == |x| <= len && Wrote(buf[..], was, at, x) && emitted == before + x
        invariant if cut && n > 0 then n == len && x <= whole && items == old(items[1..]) && !Whole()
                  else whole == x + Unsent(items) && Whole() == old(Whole()) && Live(items) == Take(live, n)
        invariant (items == old(items) && n == 0)
                  || (|items| < |old(items)| && if cut then n == len else items == [] || items[0].soFar == 0)
        invariant n > 0 ==> live != [] && !Stuck(live[0], len)
        decreases |items|
      {
        assert CutOff(items, len - n) <==> cut && n == 0;
        assert [] + Unsent(items) == Unsent(items);
        var done;
        n, done, x := WriteHead(buf, at, len, n, was, before, x, live);
        if !done {
          break;
        }
      }
      NoneUnsent();
      NoneLive();
      assert whole[..n] == x && (!cut ==> whole[n..] == Unsent(items));
      TakesWrite(old(Line()), len, n);
    }

    /** Pieces for writev; nothing leaves the queue yet.  The pieces never skip a byte: whatever
        prefix of them is written is a prefix of what is waiting. */
    method FillIovecs(limit: nat) returns (vecs: seq<Bytes>)
      requires Valid()
      ensures VecsOk(vecs, limit, Unsent(items)) && |vecs| <= Pieces(items)
    {
      hide Encoding, MessageOk, LengthTrue, Unsent, Flat, Recorded, Started, MaxPieces, LeftOf;
      FlatOfNone();
      NoneUnsent();
      vecs := [];
      var k := 0;
      assert items[0..] == items;
      while |vecs| < limit && k < |items|
        invariant k <= |items| && |vecs| <= limit
        invariant Flat(vecs) <= Unsent(items) && |vecs| + Pieces(items[k..]) <= Pieces(items)
        invariant |vecs| < limit ==> Unsent(items) == Flat(vecs) + Unsent(items[k..])
      {
        assert items[k..] == [items[k]] + items[k + 1..];
        UnsentFirst(items[k], items[k + 1..]);
        ghost var rest := LeftOf(items[k]);
        Remainder(items[k]);
        var more := Vecs(items[k].msg, limit - |vecs|, items[k].soFar);
        FlatAppend(vecs, more);
        Assoc(Flat(vecs), rest, Unsent(items[k + 1..]));
        vecs := vecs + more;
        k := k + 1;
      }
      assert items[|items|..] == [];
    }

    /** The queue is told how much was written.  It ends up with the same bytes waiting as if the
        same number had been taken by FillBuffer. */
    method IovecsWrittenBytes(count: nat)
      requires Valid() && count <= |Unsent(items)|
      modifies this
      ensures Valid() && accepted == old(accepted) && (Whole() <==> old(Whole()))
      ensures emitted == old(emitted) + old(Unsent(items))[..count]
      ensures Unsent(items) == old(Unsent(items))[count..]
      ensures Live(items) == Take(old(Live(items)), count) && Pieces(items) <= old(Pieces(items))
    {
      hide Encoding, MessageOk, LengthTrue, Started, Flat, HeaderOnly, Recorded, AllWhole, Unsent, Live, Take, Pieces,
        LeftOf, LiveOk;
      ghost var whole, before, x: Bytes := Unsent(items), emitted, [];
      ghost var live := Live(items);
      LiveIs(items);
      TakeNone(live);
      var byteCt := count;
      while byteCt > 0 && items != []
        invariant Valid() && accepted == old(accepted) && (Whole() <==> old(Whole()))
        invariant Pieces(items) <= old(Pieces(items)) && Live(items) == Take(live, |x|)
        invariant |x| + byteCt == count && whole == x + Unsent(items) && emitted == before + x
        decreases |items|
      {
        var it := items[0];
        ghost var y, tail := x, Unsent(items[1..]);
        var left, done := WrittenBytes(it.msg, byteCt, it.soFar);
        var k := byteCt - left;
        ghost var end := Encoding(it.msg)[it.soFar + k..];
        TakeMore(live, |x|, k);
        x := Advance(k, done, before, x);
        JoinUp(whole, y, x, end, tail);
        byteCt := left;
        if !done {
          break;
        }
      }
      NoneUnsent();
      assert whole[..count] == x && whole[count..] == Unsent(items);
    }

    /** Any run: whatever is enqueued, cleared, and written by whichever of the two ways, in slices
        of any size, until something is to be put before a message that has been started.  What was
        taken for each operation says all about the run. */
    method Run(ops: seq<Op>) returns (ghost taken: seq<nat>)
      requires Valid() && OpsOk(ops)
      modifies this
      ensures Valid() && |taken| <= |ops|
      ensures |taken| < |ops| ==> ops[|taken|].Add? && ops[|taken|].front && HeadStarted()
      ensures Line() == RunLine(old(Line()), ops[..|taken|], taken)
      ensures Proper(old(Line()), ops[..|taken|], taken, old(Pieces(items)) + PiecesAdded(ops))
      ensures Whole() <==> old(Whole()) && Uncut(old(Line()), ops[..|taken|], taken)
      ensures Whole() ==> emitted == Encodings(sent) + Started(items)
      ensures NoneBare(old(items)) && NoBareAdded(ops) ==> Uncut(old(Line()), ops[..|taken|], taken)
      ensures Plainly(ops) ==> |taken| == |ops| && accepted == old(accepted) + Adds(ops)
      ensures Plainly(ops) && Uncut(old(Line()), ops, taken) ==>
                emitted + Unsent(items) == old(emitted + Unsent(items)) + Encodings(Adds(ops))
    {
      hide Encoding, MessageOk, LengthTrue, Started, Flat, Encodings, Live, Unsent, Recorded, AllWhole, Take, CutOff,
        Takes, Step, Overtakes, Pieces, PiecesAdded, Uncut, Proper, RunLine, HeaderOnly;
      taken := [];
      ghost var start, pieces := Line(), Pieces(items) + PiecesAdded(ops);
      NoRun(start, pieces);
      assert ops[..0] == [];
      for i := 0 to |ops|
        invariant Valid() && |taken| == i
        invariant Line() == RunLine(start, ops[..i], taken) && Proper(start, ops[..i], taken, pieces)
        invariant Whole() <==> old(Whole()) && Uncut(start, ops[..i], taken)
        invariant Pieces(items) <= old(Pieces(items)) + PiecesAdded(ops[..i])
        invariant Plainly(ops) ==> accepted == old(accepted) + Adds(ops[..i])
      {
        if ops[i].Add? && ops[i].front && HeadStarted() {
          break;
        }
        MorePieces(ops, i);
        var n := Operate(ops[i], pieces);
        RunMore(start, ops, taken, i, n, pieces);
        taken := taken + [n];
      }
      assert ops[..|ops|] == ops;
      if Whole() {
        WholeStream(sent, gone);
      }
      RunMeans(old(items), old(emitted), ops, taken, items, emitted, pieces);
    }

    method Operate(op: Op, ghost pieces: nat) returns (n: nat)
      requires Valid() && OpOk(op) && !(op.Add? && op.front && HeadStarted()) && Pieces(items) <= pieces
      modifies this
      ensures Valid() && Line() == Step(old(Line()), op, n)
      ensures Takes(old(Line()), op, n, pieces) && !Overtakes(old(Line()).live, op)
      ensures Whole() <==> old(Whole()) && !Cuts(old(Line()).live, op)
      ensures Pieces(items) <= old(Pieces(items)) + if op.Add? then MaxPieces(op.msg) else 0
      ensures !op.Clear? && (op.Add? ==> !op.front) ==> accepted == old(accepted) + if op.Add? then [op.msg] else []
    {
      hide Encoding, MessageOk, LengthTrue, Started, Flat, Encodings, Live, Unsent, Recorded, AllWhole, Take, CutOff,
        Pieces, MaxPieces, Stuck, AllPrompt;
      n := 0;
      match op {
        case Add(msg, front) =>
          PiecesAppend(items, [Item(msg, 0)]);
          PiecesAppend([Item(msg, 0)], items);
          PiecesOfOne(Item(msg, 0));
          Enqueue(msg, front);
        case Clear => ClearQueue();
        case Write(len) =>
          CutInLine(items, len);
          var buf := new Byte[len];
          n := FillBuffer(buf, 0, len);
        case Writev(limit, count) =>
          LiveIs(items);
          var vecs := FillIovecs(limit);
          n := Min(count, |Flat(vecs)|);
          IovecsWrittenBytes(n);
      }
    }
  }

  lemma NoRun(l: QueueLine.Line, pieces: nat)
    ensures RunLine(l, [], []) == l && Proper(l, [], [], pieces) && Uncut(l, [], [])
  {
  }

  lemma RunMeans(was: seq<Item>, before: Bytes, ops: seq<Op>, taken: seq<nat>, now: seq<Item>, after: Bytes,
      pieces: nat)
    requires ItemsOk(was) && Behind(was) && ItemsOk(now) && Behind(now) && OpsOk(ops) && |taken| <= |ops|
    requires
      var l, done := QueueLine.Line(before, Live(was)), ops[..|taken|];
      RunLine(l, done, taken) == QueueLine.Line(after, Live(now)) && Proper(l, done, taken, pieces)
    ensures
      var l, done := QueueLine.Line(before, Live(was)), ops[..|taken|];
      && (NoneBare(was) && NoBareAdded(ops) ==> Uncut(l, done, taken))
      && (|taken| == |ops| && Plainly(ops) && Uncut(l, ops, taken) ==>
            after + Unsent(now) == before + Unsent(was) + Encodings(Adds(ops)))
  {
    hide ItemOk, Live, Unsent, HeaderOnly, RunLine, Proper, Uncut, Encodings, Adds, LiveOk;
    var l, done := QueueLine.Line(before, Live(was)), ops[..|taken|];
    LiveIs(was);
    LiveIs(now);
    if NoneBare(was) && NoBareAdded(ops) {
      LiveNoneBare(was);
      NothingCut(l, done, taken);
    }
    if |taken| == |ops| && Plainly(ops) && Uncut(l, ops, taken) {
      assert done == ops;
      RunsInOrder(l, ops, taken, pieces);
    }
  }

  lemma {:induction false} LiveNoneBare(items: seq<Item>)
    requires NoneBare(items)
    ensures NoneBare(Live(items))
  {
    hide HeaderOnly, LeftOf;
    if items != [] {
      LiveNoneBare(items[1..]);
    }
  }

  /** How many pieces added messages have. */
  function PiecesAdded(ops: seq<Op>): nat {
    if ops == [] then 0
    else
      var k := |ops| - 1;
      PiecesAdded(ops[..k]) + if ops[k].Add? then MaxPieces(ops[k].msg) else 0
  }

  lemma {:induction false} FewerPieces(ops: seq<Op>, i: nat)
    requires i <= |ops|
    ensures PiecesAdded(ops[..i]) <= PiecesAdded(ops)
  {
    hide MaxPieces;
    if i == |ops| {
      assert ops[..i] == ops;
    } else {
      var k := |ops| - 1;
      FewerPieces(ops[..k], i);
      assert ops[..k][..i] == ops[..i];
    }
  }

  lemma MorePieces(ops: seq<Op>, i: nat)
    requires i < |ops|
    ensures PiecesAdded(ops[..i]) <= PiecesAdded(ops[..i + 1]) <= PiecesAdded(ops)
    ensures PiecesAdded(ops[..i + 1]) == PiecesAdded(ops[..i]) + if ops[i].Add? then MaxPieces(ops[i].msg) else 0
    ensures Adds(ops[..i + 1]) == Adds(ops[..i]) + if ops[i].Add? then [ops[i].msg] else []
  {
    hide MaxPieces;
    assert ops[..i + 1][..i] == ops[..i];
    FewerPieces(ops, i + 1);
  }

  /** A run, and one operation more. */
  lemma RunMore(l: QueueLine.Line, ops: seq<Op>, taken: seq<nat>, i: nat, n: nat, pieces: nat)
    requires |taken| == i < |ops|
    ensures
      var before, more := RunLine(l, ops[..i], taken), taken + [n];
      && RunLine(l, ops[..i + 1], more) == Step(before, ops[i], n)
      && (Proper(l, ops[..i + 1], more, pieces) <==>
            Proper(l, ops[..i], taken, pieces) && Takes(before, ops[i], n, pieces) && !Overtakes(before.live, ops[i]))
      && (Uncut(l, ops[..i + 1], more) <==> Uncut(l, ops[..i], taken) && !Cuts(before.live, ops[i]))
  {
    hide Step, Takes, Overtakes, Cuts;
    assert ops[..i + 1][..i] == ops[..i] && (taken + [n])[..i] == taken;
  }

  lemma FillGives(m: Message, len: nat, start: nat, n: nat, done: bool)
    requires FillOk(m, len, start, n, done) && 0 < len
    ensures n <= len && start + n <= |Encoding(m)|
    ensures done && start + n < |Encoding(m)| <==> HeaderOnly(m) && 0 < start && start + len < 16
    ensures done && start + n < |Encoding(m)| ==> n == len
    ensures Prompt(m) && !done ==> n == len
    ensures start == |Encoding(m)| ==> done && n == 0
    ensures start < |Encoding(m)| ==> (n == 0 <==> Stuck(Item(m, start), len)) && (n == 0 ==> !done)
  {
    var total := |Encoding(m)|;
    if m.Backend? && start < total {
      BackendStalls(total, len, start);
    } else if m.Passthrough? && start < total {
      BackendStalls(total + 16, len, start + 16);
    }
  }

  lemma Given(now: Bytes, was: Bytes, mid: Bytes, at: nat, x: Bytes, enc: Bytes, start: nat, n: nat)
    requires Wrote(mid, was, at, x) && FilledFrom(now, mid, at + |x|, enc, start, n)
    ensures Wrote(now, was, at, x + enc[start..start + n])
  {
    WroteMore(was, mid, now, at, x, enc[start..start + n]);
  }

  lemma MessagesTail(items: seq<Item>)
    requires items != []
    ensures Messages(items) == [items[0].msg] + Messages(items[1..])
  {
  }

  /** Writing k more bytes of the first message, and dropping it. */
  lemma Advances(it: Item, rest: seq<Item>, k: nat, gone: seq<Bytes>, emitted: Bytes)
    requires ItemOk(it) && ItemsOk(rest) && it.soFar + k <= |Encoding(it.msg)|
    requires forall i | 0 <= i < |rest| :: rest[i].soFar == 0
    requires emitted == Flat(gone) + Encoding(it.msg)[..it.soFar]
    ensures
      var enc, it' := Encoding(it.msg), it.(soFar := it.soFar + k);
      var piece, tail := enc[it.soFar..it.soFar + k], enc[it.soFar + k..];
      && ([it] + rest)[1..] == rest && ([it'] + rest)[1..] == rest
      && Unsent([it] + rest) == piece + (tail + Unsent(rest)) && Unsent([it'] + rest) == tail + Unsent(rest)
      && emitted + piece == Flat(gone) + enc[..it.soFar + k]
      && emitted + piece == Flat(gone + [enc[..it.soFar + k]]) + Started(rest)
  {
    hide Encoding, MessageOk, LengthTrue, Unsent, Flat, Started;
    UnsentFirst(it, rest);
    UnsentFirst(it.(soFar := it.soFar + k), rest);
    SliceOn(Encoding(it.msg), it.soFar, k, Flat(gone), Unsent(rest));
    VecsMore(gone, Encoding(it.msg)[..it.soFar + k]);
    NoneStarted(rest);
  }

  lemma SliceOn(enc: Bytes, from: nat, k: nat, before: Bytes, after: Bytes)
    requires from + k <= |enc|
    ensures
      var piece := enc[from..from + k];
      && before + enc[..from] + piece == before + enc[..from + k]
      && enc[from..] + after == piece + (enc[from + k..] + after)
  {
    var piece, tail := enc[from..from + k], enc[from + k..];
    assert enc[from..] == piece + tail;
    Assoc(piece, tail, after);
    Assoc(before, enc[..from], piece);
    assert enc[..from + k] == enc[..from] + piece;
  }
}

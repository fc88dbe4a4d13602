/** What a queue of messages promises: a line in which messages wait, from the front of which any
    number of bytes is taken at a time. */
module QueueLine {
  import opened Wire
  import opened Writers

  datatype Item = Item(msg: Message, soFar: nat)

  function Encodings(ms: seq<Message>): Bytes {
    if ms == [] then [] else Encoding(ms[0]) + Encodings(ms[1..])
  }

  predicate ItemOk(it: Item) { MessageOk(it.msg) && LengthTrue(it.msg) && it.soFar <= |Encoding(it.msg)| }

  predicate ItemsOk(items: seq<Item>) { forall i | 0 <= i < |items| :: ItemOk(items[i]) }

  /** Only the first message may have been started. */
  predicate Behind(items: seq<Item>) { forall i | 0 < i < |items| :: items[i].soFar == 0 }

  function LeftOf(it: Item): Bytes { if it.soFar <= |Encoding(it.msg)| then Encoding(it.msg)[it.soFar..] else [] }

  /** The bytes still to be written, in order. */
  function Unsent(items: seq<Item>): Bytes {
    if items == [] then [] else LeftOf(items[0]) + Unsent(items[1..])
  }

  function Started(items: seq<Item>): Bytes { if items == [] then [] else WrittenOf(items[0]) }

  function WrittenOf(it: Item): Bytes { if it.soFar <= |Encoding(it.msg)| then Encoding(it.msg)[..it.soFar] else [] }

  function Messages(items: seq<Item>): seq<Message> {
    seq(|items|, i requires 0 <= i < |items| => items[i].msg)
  }

  /** A backend message without any data. */
  predicate HeaderOnly(m: Message) { m.Backend? && |m.fields| <= 1 && Flat(FieldBytes(m.fields)) == [] }

  /** The rest of such a header, started already, does not fit again. */
  predicate CutOff(items: seq<Item>, len: nat) {
    items != [] && HeaderOnly(items[0].msg) && 0 < items[0].soFar && 0 < len && items[0].soFar + len < 16
  }

  /** Backend messages are stuck on one size of buffer, see BackendStalls. */
  predicate Stuck(it: Item, len: nat) {
    || (it.msg.Backend? && it.soFar >= 16 && it.soFar == len)
    || (it.msg.Passthrough? && it.soFar + 16 == len)
  }

  lemma NoneUnsent()
    ensures Unsent([]) == []
  {
  }

  lemma UnsentFirst(it: Item, rest: seq<Item>)
    ensures ([it] + rest)[1..] == rest && Unsent([it] + rest) == LeftOf(it) + Unsent(rest)
  {
    hide LeftOf;
    assert ([it] + rest)[1..] == rest;
  }

  lemma {:induction false} UnsentAppend(a: seq<Item>, it: Item)
    ensures Unsent(a + [it]) == Unsent(a) + LeftOf(it)
  {
    hide LeftOf;
    if a == [] {
      assert (a + [it])[1..] == [];
    } else {
      assert (a + [it])[1..] == a[1..] + [it];
      UnsentAppend(a[1..], it);
      Assoc(LeftOf(a[0]), Unsent(a[1..]), LeftOf(it));
    }
  }

  // ---------- The line ----------

  /** Everything the connection has been given, and the messages of which something is left. */
  datatype Line = Line(out: Bytes, live: seq<Item>)

  predicate LiveOk(live: seq<Item>) {
    ItemsOk(live) && Behind(live) && forall i | 0 <= i < |live| :: LeftOf(live[i]) != []
  }

  /** n bytes are taken from the front. */
  function Take(live: seq<Item>, n: nat): (rest: seq<Item>)
    ensures |rest| <= |live|
  {
    if n == 0 || live == [] then live
    else
      var it := live[0];
      if n < |LeftOf(it)| then [it.(soFar := it.soFar + n)] + live[1..] else Take(live[1..], n - |LeftOf(it)|)
  }

  datatype Op = Add(msg: Message, front: bool) | Clear | Write(len: nat) | Writev(limit: nat, count: nat)

  predicate OpOk(op: Op) { op.Add? ==> MessageOk(op.msg) && LengthTrue(op.msg) }

  predicate OpsOk(ops: seq<Op>) { forall i | 0 <= i < |ops| :: OpOk(ops[i]) }

  /** A message that has been started is finished before anything else, unless one is put before it. */
  predicate Overtakes(live: seq<Item>, op: Op) { op.Add? && op.front && live != [] && live[0].soFar > 0 }

  predicate Cuts(live: seq<Item>, op: Op) { op.Write? && CutOff(live, op.len) }

  function Cleared(live: seq<Item>): seq<Item> { if live != [] && live[0].soFar > 0 then live[..1] else [] }

  /** One operation, which takes n bytes.  If it cuts off a header, that message is gone. */
  function Step(l: Line, op: Op, n: nat): Line {
    match op
    case Add(msg, front) =>
      if Encoding(msg) == [] then l
      else l.(live := if front then [Item(msg, 0)] + l.live else l.live + [Item(msg, 0)])
    case Clear => l.(live := Cleared(l.live))
    case _ => Line(l.out + Unsent(l.live)[..Min(n, |Unsent(l.live)|)], if Cuts(l.live, op) then l.live[1..]
        else Take(l.live, n))
  }

  predicate AllPrompt(live: seq<Item>) { forall i | 0 <= i < |live| :: Prompt(live[i].msg) }

  /** How much an operation may take.  A buffer takes something unless the writer is stuck, and all it
      has room for if no backend message is waiting; writev, given all pieces there are, takes all it
      is ready for. */
  predicate Takes(l: Line, op: Op, n: nat, pieces: nat) {
    var waiting := |Unsent(l.live)|;
    match op
    case Write(len) =>
      && n <= Min(len, waiting)
      && (CutOff(l.live, len) ==> n == len)
      && (n == 0 <==> len == 0 || l.live == [] || Stuck(l.live[0], len))
      && (AllPrompt(l.live) ==> n == Min(len, waiting))
    case Writev(limit, count) => n <= Min(count, waiting) && (pieces < limit ==> n == Min(count, waiting))
    case _ => n == 0
  }

  lemma LeftWhole(m: Message)
    requires MessageOk(m) && LengthTrue(m)
    ensures LeftOf(Item(m, 0)) == Encoding(m)
  {
  }

  lemma LeftLater(it: Item, n: nat)
    requires ItemOk(it) && n <= |LeftOf(it)|
    ensures var it' := it.(soFar := it.soFar + n); ItemOk(it') && LeftOf(it') == LeftOf(it)[n..]
  {
    hide MessageOk, LengthTrue, Encoding;
  }

  lemma LiveFirst(it: Item, rest: seq<Item>)
    requires LiveOk(rest) && Fresh(rest) && ItemOk(it) && LeftOf(it) != []
    ensures LiveOk([it] + rest) && ([it] + rest)[1..] == rest
  {
    hide ItemOk, LeftOf;
    assert ([it] + rest)[1..] == rest;
  }

  predicate Fresh(items: seq<Item>) { forall i | 0 <= i < |items| :: items[i].soFar == 0 }

  lemma LiveRest(live: seq<Item>)
    requires LiveOk(live) && live != []
    ensures LiveOk(live[1..]) && Fresh(live[1..]) && ItemOk(live[0]) && LeftOf(live[0]) != []
    ensures Unsent(live) == LeftOf(live[0]) + Unsent(live[1..])
  {
    hide ItemOk, LeftOf;
  }

  lemma {:induction false} TakeOk(live: seq<Item>, n: nat)
    requires LiveOk(live) && n <= |Unsent(live)|
    ensures LiveOk(Take(live, n)) && Unsent(Take(live, n)) == Unsent(live)[n..]
    decreases live
  {
    hide ItemOk, LeftOf, LiveOk, Unsent;
    NoneUnsent();
    if n > 0 {
      var it, rest := live[0], live[1..];
      LiveRest(live);
      if n < |LeftOf(it)| {
        LeftLater(it, n);
        LiveFirst(it.(soFar := it.soFar + n), rest);
        UnsentFirst(it.(soFar := it.soFar + n), rest);
        assert (LeftOf(it) + Unsent(rest))[n..] == LeftOf(it)[n..] + Unsent(rest);
      } else {
        TakeOk(rest, n - |LeftOf(it)|);
        SliceOfTail(LeftOf(it), Unsent(rest), n, |Unsent(live)|);
      }
    }
  }

  lemma {:induction false} TakeMore(live: seq<Item>, a: nat, b: nat)
    requires LiveOk(live) && a + b <= |Unsent(live)|
    ensures Take(Take(live, a), b) == Take(live, a + b)
    decreases live
  {
    hide ItemOk, LeftOf, LiveOk, Unsent;
    NoneUnsent();
    if a > 0 && b > 0 {
      var it, rest := live[0], live[1..];
      LiveRest(live);
      if a < |LeftOf(it)| {
        var it' := it.(soFar := it.soFar + a);
        assert ([it'] + rest)[1..] == rest;
        LeftLater(it, a);
      } else {
        TakeMore(rest, a - |LeftOf(it)|, b);
      }
    }
  }

  lemma StepOk(l: Line, op: Op, n: nat)
    requires LiveOk(l.live) && OpOk(op) && n <= |Unsent(l.live)| && !Overtakes(l.live, op)
    ensures LiveOk(Step(l, op, n).live)
  {
    hide MessageOk, LengthTrue, Encoding, Unsent, Take, HeaderOnly, LeftOf;
    match op
    case Add(msg, front) =>
      LeftWhole(msg);
    case Clear =>
    case _ => TakeOk(l.live, n);
  }

  // ---------- Runs ----------

  function RunLine(l: Line, ops: seq<Op>, taken: seq<nat>): Line
    requires |taken| == |ops|
  {
    if ops == [] then l
    else
      var k := |ops| - 1;
      Step(RunLine(l, ops[..k], taken[..k]), ops[k], taken[k])
  }

  /** Every operation took what it may, and nothing was put before a message that had been started. */
  predicate Proper(l: Line, ops: seq<Op>, taken: seq<nat>, pieces: nat)
    requires |taken| == |ops|
  {
    if ops == [] then true
    else
      var k := |ops| - 1;
      var before := RunLine(l, ops[..k], taken[..k]);
      Proper(l, ops[..k], taken[..k], pieces) && Takes(before, ops[k], taken[k], pieces)
          && !Overtakes(before.live, ops[k])
  }

  /** No header was cut off again. */
  predicate Uncut(l: Line, ops: seq<Op>, taken: seq<nat>)
    requires |taken| == |ops|
  {
    if ops == [] then true
    else
      var k := |ops| - 1;
      Uncut(l, ops[..k], taken[..k]) && !Cuts(RunLine(l, ops[..k], taken[..k]).live, ops[k])
  }

  lemma {:induction false} RunOk(l: Line, ops: seq<Op>, taken: seq<nat>, pieces: nat)
    requires LiveOk(l.live) && OpsOk(ops) && |taken| == |ops| && Proper(l, ops, taken, pieces)
    ensures LiveOk(RunLine(l, ops, taken).live)
    decreases |ops|
  {
    hide LiveOk, Step, Takes, OpOk, Overtakes;
    if ops != [] {
      var k := |ops| - 1;
      RunOk(l, ops[..k], taken[..k], pieces);
      assert OpOk(ops[k]);
      var before := RunLine(l, ops[..k], taken[..k]);
      TakesLess(before, ops[k], taken[k], pieces);
      StepOk(before, ops[k], taken[k]);
    }
  }

  predicate NoneBare(live: seq<Item>) { forall i | 0 <= i < |live| :: !HeaderOnly(live[i].msg) }

  predicate NoBareAdded(ops: seq<Op>) { forall i | 0 <= i < |ops| && ops[i].Add? :: !HeaderOnly(ops[i].msg) }

  lemma {:induction false} TakeNoneBare(live: seq<Item>, n: nat)
    requires NoneBare(live)
    ensures NoneBare(Take(live, n))
    decreases live
  {
    hide HeaderOnly, LeftOf;
    if n > 0 && live != [] && n >= |LeftOf(live[0])| {
      TakeNoneBare(live[1..], n - |LeftOf(live[0])|);
    }
  }

  /** Without messages that are nothing but a header, nothing is ever cut off. */
  lemma {:induction false} NothingCut(l: Line, ops: seq<Op>, taken: seq<nat>)
    requires |taken| == |ops| && NoneBare(l.live) && NoBareAdded(ops)
    ensures Uncut(l, ops, taken) && NoneBare(RunLine(l, ops, taken).live)
    decreases |ops|
  {
    hide HeaderOnly, Take, Unsent, Encoding;
    if ops != [] {
      var k := |ops| - 1;
      NothingCut(l, ops[..k], taken[..k]);
      TakeNoneBare(RunLine(l, ops[..k], taken[..k]).live, taken[k]);
    }
  }

  /** What is out and what is waiting. */
  function Whole(l: Line): Bytes { l.out + Unsent(l.live) }

  function Adds(ops: seq<Op>): seq<Message> {
    if ops == [] then []
    else
      var k := |ops| - 1;
      Adds(ops[..k]) + if ops[k].Add? then [ops[k].msg] else []
  }

  /** Nothing thrown out and nothing put in front. */
  predicate Plainly(ops: seq<Op>) {
    forall i | 0 <= i < |ops| :: !ops[i].Clear? && (ops[i].Add? ==> !ops[i].front)
  }

  lemma EncodingsAdd(ms: seq<Message>, m: Message)
    ensures Encodings(ms + [m]) == Encodings(ms) + Encoding(m)
  {
    hide Encoding;
    EncodingsAppend(ms, [m]);
    assert [m][1..] == [];
  }

  lemma {:induction false} EncodingsAppend(a: seq<Message>, b: seq<Message>)
    ensures Encodings(a + b) == Encodings(a) + Encodings(b)
  {
    hide Encoding;
    if a == [] {
      assert a + b == b;
    } else {
      assert (a + b)[1..] == a[1..] + b;
      EncodingsAppend(a[1..], b);
      Assoc(Encoding(a[0]), Encodings(a[1..]), Encodings(b));
    }
  }

  lemma StepWhole(l: Line, op: Op, n: nat)
    requires LiveOk(l.live) && OpOk(op) && n <= |Unsent(l.live)| && !Cuts(l.live, op)
    ensures op.Add? && !op.front ==> Whole(Step(l, op, n)) == Whole(l) + Encoding(op.msg)
    ensures op.Write? || op.Writev? ==> Whole(Step(l, op, n)) == Whole(l)
  {
    hide MessageOk, LengthTrue, Encoding, Unsent, Take, HeaderOnly, LeftOf;
    match op
    case Add(msg, _) =>
      LeftWhole(msg);
      UnsentAppend(l.live, Item(msg, 0));
      Assoc(l.out, Unsent(l.live), Encoding(msg));
      assert Encoding(msg) == [] ==> Whole(l) + Encoding(msg) == Whole(l);
    case Clear =>
    case _ =>
      TakeOk(l.live, n);
      assert Unsent(l.live)[..n] + Unsent(l.live)[n..] == Unsent(l.live);
      Assoc(l.out, Unsent(l.live)[..n], Unsent(l.live)[n..]);
  }

  /** Over any run of adding and writing, in slices of any size by either way, all messages come out
      whole and in the order in which they were added: the bytes out, and those waiting after them,
      are those there were and those of the messages. */
  lemma {:induction false} RunsInOrder(l: Line, ops: seq<Op>, taken: seq<nat>, pieces: nat)
    requires LiveOk(l.live) && OpsOk(ops) && |taken| == |ops| && Plainly(ops)
    requires Proper(l, ops, taken, pieces) && Uncut(l, ops, taken)
    ensures Whole(RunLine(l, ops, taken)) == Whole(l) + Encodings(Adds(ops))
    decreases |ops|
  {
    hide LiveOk, Step, OpOk, Whole, Encoding, Encodings, Cuts, Takes, Overtakes;
    if ops == [] {
      NoEncodings();
      assert Whole(l) + [] == Whole(l);
    } else {
      var k := |ops| - 1;
      RunsInOrder(l, ops[..k], taken[..k], pieces);
      RunOk(l, ops[..k], taken[..k], pieces);
      var before, op, sum := RunLine(l, ops[..k], taken[..k]), ops[k], Adds(ops[..k]);
      assert OpOk(op);
      TakesLess(before, op, taken[k], pieces);
      StepWhole(before, op, taken[k]);
      if op.Add? {
        EncodingsAdd(sum, op.msg);
        Assoc(Whole(l), Encodings(sum), Encoding(op.msg));
      } else {
        assert sum + [] == sum;
      }
    }
  }

  lemma NoEncodings()
    ensures Encodings([]) == []
  {
  }

  lemma TakesLess(l: Line, op: Op, n: nat, pieces: nat)
    requires Takes(l, op, n, pieces)
    ensures n <= |Unsent(l.live)|
  {
  }

  // ---------- With messages thrown out ----------

  /** The messages an operation finishes, or loses. */
  function Finishes(l: Line, op: Op, n: nat): seq<Message> {
    var rest := Step(l, op, n).live;
    if (op.Write? || op.Writev?) && |rest| <= |l.live| then Messages(l.live[..|l.live| - |rest|]) else []
  }

  /** All messages finished in a run. */
  function Past(l: Line, ops: seq<Op>, taken: seq<nat>): seq<Message>
    requires |taken| == |ops|
  {
    if ops == [] then []
    else
      var k := |ops| - 1;
      Past(l, ops[..k], taken[..k]) + Finishes(RunLine(l, ops[..k], taken[..k]), ops[k], taken[k])
  }

  /** The messages that were added and not thrown out. */
  function Kept(l: Line, ops: seq<Op>, taken: seq<nat>): seq<Message>
    requires |taken| == |ops|
  {
    Past(l, ops, taken) + Messages(RunLine(l, ops, taken).live)
  }

  lemma WholeMessage(it: Item)
    requires ItemOk(it)
    ensures WrittenOf(it) + LeftOf(it) == Encoding(it.msg)
    ensures it.soFar == 0 ==> WrittenOf(it) == []
    ensures forall n | 0 <= n <= |LeftOf(it)| ::
              WrittenOf(it) + LeftOf(it)[..n] == WrittenOf(it.(soFar := it.soFar + n))
  {
    hide MessageOk, LengthTrue, Encoding;
  }

  lemma MessagesSplit(a: seq<Item>, b: seq<Item>)
    ensures Messages(a + b) == Messages(a) + Messages(b)
  {
  }

  /** Taking n bytes finishes the first few messages and starts the next. */
  lemma {:induction false} TakeFinishes(live: seq<Item>, n: nat)
    requires LiveOk(live) && n <= |Unsent(live)|
    ensures
      var rest := Take(live, n);
      var finished := live[..|live| - |rest|];
      && Started(live) + Unsent(live)[..n] == Encodings(Messages(finished)) + Started(rest)
      && Messages(live) == Messages(finished) + Messages(rest)
    decreases |live|, 1
  {
    hide ItemOk, LeftOf, WrittenOf, LiveOk, Unsent, Encoding, Encodings, Messages;
    NoneUnsent();
    NoEncodings();
    NoMessages();
    if n == 0 {
      assert live[..0] == [];
      assert Started(live) + [] == Started(live) && [] + Started(live) == Started(live);
      assert [] + Messages(live) == Messages(live);
    } else {
      var it, rest := live[0], live[1..];
      LiveRest(live);
      WholeMessage(it);
      assert live == [it] + rest;
      MessagesSplit([it], rest);
      OneMessage(it);
      if n < |LeftOf(it)| {
        var it' := it.(soFar := it.soFar + n);
        assert live[..0] == [] && (LeftOf(it) + Unsent(rest))[..n] == LeftOf(it)[..n];
        MessagesSplit([it'], rest);
        OneMessage(it');
        assert [] + WrittenOf(it') == WrittenOf(it');
        assert [] + Messages(live) == Messages(live);
      } else {
        FinishFirst(it, rest, n);
      }
    }
  }

  lemma FinishFirst(it: Item, rest: seq<Item>, n: nat)
    requires LiveOk([it] + rest) && LiveOk(rest) && Fresh(rest) && ItemOk(it)
    requires 0 < |LeftOf(it)| <= n <= |Unsent([it] + rest)|
    ensures
      var live, after := [it] + rest, Take([it] + rest, n);
      var finished := live[..|live| - |after|];
      && Started(live) + Unsent(live)[..n] == Encodings(Messages(finished)) + Started(after)
      && Messages(live) == Messages(finished) + Messages(after)
    decreases |rest| + 1, 0
  {
    hide ItemOk, LeftOf, WrittenOf, LiveOk, Unsent, Encoding, Encodings, Messages;
    var live, k := [it] + rest, n - |LeftOf(it)|;
    UnsentFirst(it, rest);
    WholeMessage(it);
    TakeFinishes(rest, k);
    NoneStarted(rest);
    var after := Take(rest, k);
    assert live[1..] == rest && Take(live, n) == after;
    var c := |rest| - |after|;
    assert live[..1 + c] == [it] + rest[..c];
    MessagesSplit([it], rest[..c]);
    MessagesSplit([it], rest);
    OneMessage(it);
    EncodingsFirst(it.msg, Messages(rest[..c]));
    var left, more := LeftOf(it), Unsent(rest)[..k];
    assert Unsent(live)[..n] == left + more;
    Assoc(WrittenOf(it), left, more);
    assert [] + more == more;
    Assoc(Encoding(it.msg), Encodings(Messages(rest[..c])), Started(after));
  }

  lemma EncodingsFirst(m: Message, ms: seq<Message>)
    ensures Encodings([m] + ms) == Encoding(m) + Encodings(ms)
  {
    assert ([m] + ms)[1..] == ms;
  }

  lemma OneMessage(it: Item)
    ensures Messages([it]) == [it.msg]
  {
  }

  lemma NoMessages()
    ensures Messages([]) == []
  {
  }

  lemma NoneStarted(items: seq<Item>)
    requires Fresh(items)
    ensures Started(items) == []
  {
  }

  /** What a run leaves of a line that began with b. */
  predicate Continues(l: Line, b: Bytes, past: seq<Message>) { l.out == b + Encodings(past) + Started(l.live) }

  lemma StepContinues(l: Line, b: Bytes, past: seq<Message>, op: Op, n: nat)
    requires LiveOk(l.live) && OpOk(op) && n <= |Unsent(l.live)| && !Cuts(l.live, op) && !Overtakes(l.live, op)
    requires Continues(l, b, past)
    ensures Continues(Step(l, op, n), b, past + Finishes(l, op, n))
  {
    hide MessageOk, LengthTrue, Encoding, Encodings, Unsent, Take, HeaderOnly, LeftOf, WrittenOf, LiveOk, Messages;
    match op
    case Add(msg, front) =>
      StartedWhenAdded(l.live, msg);
      assert past + [] == past;
    case Clear =>
      StartedWhenCleared(l.live);
      assert past + [] == past;
    case _ =>
      var sofar := b + Encodings(past);
      TakeFinishes(l.live, n);
      var rest := Take(l.live, n);
      var finished := Messages(l.live[..|l.live| - |rest|]);
      EncodingsAppend(past, finished);
      Assoc(b, Encodings(past), Encodings(finished));
      Assoc(sofar, Started(l.live), Unsent(l.live)[..n]);
      Assoc(sofar, Encodings(finished), Started(rest));
  }

  lemma StartedWhenAdded(live: seq<Item>, m: Message)
    requires MessageOk(m) && LengthTrue(m)
    ensures Started(live + [Item(m, 0)]) == Started(live)
    ensures live == [] || live[0].soFar == 0 ==> Started([Item(m, 0)] + live) == Started(live)
  {
    hide MessageOk, LengthTrue, Encoding;
  }

  lemma StartedWhenCleared(live: seq<Item>)
    ensures Started(Cleared(live)) == Started(live)
  {
    hide Encoding;
  }

  /** Over any run the connection gets whole messages, those finished, and the start of the next. */
  lemma {:induction false} RunsWhole(l: Line, b: Bytes, ops: seq<Op>, taken: seq<nat>, pieces: nat)
    requires LiveOk(l.live) && OpsOk(ops) && |taken| == |ops|
    requires Proper(l, ops, taken, pieces) && Uncut(l, ops, taken) && l.out == b + Started(l.live)
    ensures RunLine(l, ops, taken).out == b + Encodings(Past(l, ops, taken)) + Started(RunLine(l, ops, taken).live)
    decreases |ops|
  {
    hide LiveOk, Step, OpOk, Encodings, Cuts, Takes, Overtakes, Finishes, Started;
    if ops == [] {
      NoEncodings();
      assert b + [] == b;
    } else {
      var k := |ops| - 1;
      RunsWhole(l, b, ops[..k], taken[..k], pieces);
      RunOk(l, ops[..k], taken[..k], pieces);
      var before := RunLine(l, ops[..k], taken[..k]);
      assert OpOk(ops[k]);
      TakesLess(before, ops[k], taken[k], pieces);
      StepContinues(before, b, Past(l, ops[..k], taken[..k]), ops[k], taken[k]);
    }
  }

  /** What one operation does to the messages kept: writing nothing, adding what it should, and
      throwing out exactly those at the end that have not been started. */
  lemma KeptAfter(l: Line, ops: seq<Op>, taken: seq<nat>, pieces: nat)
    requires LiveOk(l.live) && OpsOk(ops) && |taken| == |ops| > 0 && Proper(l, ops, taken, pieces)
    ensures
      var k := |ops| - 1;
      var kept, past := Kept(l, ops[..k], taken[..k]), Past(l, ops[..k], taken[..k]);
      var waiting := RunLine(l, ops[..k], taken[..k]).live;
      Kept(l, ops, taken) ==
        match ops[k]
        case Add(msg, front) =>
          if Encoding(msg) == [] then kept else if front then past + [msg] + Messages(waiting) else kept + [msg]
        case Clear => kept[..|past| + if waiting != [] && waiting[0].soFar > 0 then 1 else 0]
        case _ => kept
  {
    hide LiveOk, Encoding, Takes, RunLine, Messages, Take, Unsent, HeaderOnly, Step, Finishes, Past, Overtakes, OpOk;
    var k := |ops| - 1;
    var before, past := RunLine(l, ops[..k], taken[..k]), Past(l, ops[..k], taken[..k]);
    RunStep(l, ops, taken);
    RunOk(l, ops[..k], taken[..k], pieces);
    TakesLess(before, ops[k], taken[k], pieces);
    KeptStep(before, past, ops[k], taken[k]);
  }

  lemma RunStep(l: Line, ops: seq<Op>, taken: seq<nat>)
    requires |taken| == |ops| > 0
    ensures
      var k := |ops| - 1;
      && RunLine(l, ops, taken) == Step(RunLine(l, ops[..k], taken[..k]), ops[k], taken[k])
      && Past(l, ops, taken)
         == Past(l, ops[..k], taken[..k]) + Finishes(RunLine(l, ops[..k], taken[..k]), ops[k], taken[k])
  {
    hide Step, Finishes;
  }

  lemma KeptStep(l: Line, past: seq<Message>, op: Op, n: nat)
    requires LiveOk(l.live) && n <= |Unsent(l.live)|
    ensures
      var kept := past + Messages(l.live);
      past + Finishes(l, op, n) + Messages(Step(l, op, n).live) ==
        match op
        case Add(msg, front) =>
          if Encoding(msg) == [] then kept else if front then past + [msg] + Messages(l.live) else kept + [msg]
        case Clear => kept[..|past| + if l.live != [] && l.live[0].soFar > 0 then 1 else 0]
        case _ => kept
  {
    hide LiveOk, Encoding, Take, Unsent, HeaderOnly, Messages;
    var live := l.live;
    if Cuts(live, op) {
      MessagesSplit(live[..1], live[1..]);
      assert live == live[..1] + live[1..];
    }
    match op
    case Add(msg, front) =>
      OneMessage(Item(msg, 0));
      MessagesSplit([Item(msg, 0)], live);
      MessagesSplit(live, [Item(msg, 0)]);
    case Clear => MessagesPrefix(live, |Cleared(live)|);
    case _ => TakeFinishes(live, n);
  }

  lemma MessagesPrefix(live: seq<Item>, k: nat)
    requires k <= |live|
    ensures |Messages(live)| == |live| && Messages(live[..k]) == Messages(live)[..k]
  {
  }

  // ---------- Order ----------

  /** a can be had from b by leaving some out. */
  predicate Within(a: seq<Message>, b: seq<Message>)
    decreases |b|
  {
    if a == [] then true
    else if b == [] then false
    else
      var a', b' := a[..|a| - 1], b[..|b| - 1];
      (a[|a| - 1] == b[|b| - 1] && Within(a', b')) || Within(a, b')
  }

  lemma {:induction false} WithinItself(a: seq<Message>)
    ensures Within(a, a)
  {
    if a != [] {
      WithinItself(a[..|a| - 1]);
    }
  }

  lemma WithinMore(a: seq<Message>, b: seq<Message>, m: Message)
    requires Within(a, b)
    ensures Within(a, b + [m]) && Within(a + [m], b + [m])
  {
    assert (b + [m])[..|b|] == b && (a + [m])[..|a|] == a;
  }

  lemma {:induction false} WithinLess(a: seq<Message>, b: seq<Message>, k: nat)
    requires Within(a, b) && k <= |a|
    ensures Within(a[..k], b)
    decreases |b|
  {
    if k == |a| {
      assert a[..k] == a;
    } else if k > 0 {
      var a', b' := a[..|a| - 1], b[..|b| - 1];
      if a[|a| - 1] == b[|b| - 1] && Within(a', b') {
        WithinLess(a', b', k);
        assert a'[..k] == a[..k];
      } else {
        WithinLess(a, b', k);
      }
    }
  }

  /** Whatever is thrown out, the messages that are kept are in the order in which they came. */
  lemma {:induction false} KeptInOrder(l: Line, ops: seq<Op>, taken: seq<nat>, pieces: nat)
    requires LiveOk(l.live) && OpsOk(ops) && |taken| == |ops| && Proper(l, ops, taken, pieces)
    requires forall i | 0 <= i < |ops| && ops[i].Add? :: !ops[i].front
    ensures Within(Kept(l, ops, taken), Messages(l.live) + Adds(ops))
    decreases |ops|
  {
    hide LiveOk, RunLine, Past, Kept, Messages, Takes, Overtakes, Within, Encoding;
    if ops == [] {
      KeptAtFirst(l);
      WithinItself(Messages(l.live));
      assert Messages(l.live) + [] == Messages(l.live);
    } else {
      var k := |ops| - 1;
      var kept, all := Kept(l, ops[..k], taken[..k]), Messages(l.live) + Adds(ops[..k]);
      KeptInOrder(l, ops[..k], taken[..k], pieces);
      KeptAfter(l, ops, taken, pieces);
      if ops[k].Add? {
        WithinMore(kept, all, ops[k].msg);
        assert all + [ops[k].msg] == Messages(l.live) + Adds(ops);
      } else {
        assert Adds(ops) == Adds(ops[..k]);
        KeptOf(l, ops[..k], taken[..k]);
        WithinLess(kept, all, |Kept(l, ops, taken)|);
      }
    }
  }

  lemma KeptAtFirst(l: Line)
    ensures Kept(l, [], []) == Messages(l.live)
  {
  }

  lemma KeptOf(l: Line, ops: seq<Op>, taken: seq<nat>)
    requires |taken| == |ops|
    ensures |Kept(l, ops, taken)| == |Past(l, ops, taken)| + |RunLine(l, ops, taken).live|
  {
  }
}

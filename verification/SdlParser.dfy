/** recursive_parse: an offset moves through the buffer in loops, with a length check before
    every read. */
module SdlParser {
  import opened Wire
  import opened PlKeys
  import opened SdlModel
  import SdlWriter

  /** Reading goes on where an accumulated list left off. */
  function Onto<T>(done: seq<T>, p: Parsed<seq<T>>): Parsed<seq<T>> {
    if p.Fail? then p else Ok(done + p.value, p.rest)
  }

  lemma OntoMore<T>(done: seq<T>, x: T, p: Parsed<seq<T>>)
    ensures Onto(done + [x], p) == Onto(done, if p.Fail? then p else Ok([x] + p.value, p.rest))
  {
    if p.Ok? {
      assert done + [x] + p.value == done + ([x] + p.value);
    }
  }

  lemma OntoNone<T>(p: Parsed<seq<T>>)
    ensures Onto([], p) == p
  {
    if p.Ok? {
      assert [] + p.value == p.value;
    }
  }

  lemma {:induction false} TooShort(shape: Shape, n: nat, bs: Bytes)
    requires !shape.KeyShape? && !shape.Unsendable?
    requires |bs| < n * SdlWriter.Width(shape)
    ensures TakeElems(shape, n, bs) == Fail(Truncated)
  {
    hide SdlWriter.Width;
    var w := SdlWriter.Width(shape);
    if n == 0 {
    } else {
      ElemTakes(shape, bs);
      assert (n - 1) * w + w == n * w;
      if |bs| >= w {
        TooShort(shape, n - 1, bs[w..]);
      }
    }
  }

  lemma {:induction false} WordsTake(n: nat, bs: Bytes)
    ensures |bs| >= 4 * n ==> TakeWords(n, bs).Ok? && TakeWords(n, bs).rest == bs[4 * n..]
    ensures |bs| < 4 * n ==> TakeWords(n, bs) == Fail(Truncated)
  {
    if n > 0 && |bs| >= 4 {
      WordsTake(n - 1, bs[4..]);
      if |bs| >= 4 * n {
        assert bs[4..][4 * (n - 1)..] == bs[4 * n..];
      }
    }
  }

  /** A value of fixed width is read exactly when that many bytes are left. */
  lemma ElemTakes(shape: Shape, bs: Bytes)
    requires !shape.KeyShape? && !shape.Unsendable?
    ensures |bs| >= SdlWriter.Width(shape) ==>
              TakeElem(shape, bs).Ok? && TakeElem(shape, bs).rest == bs[SdlWriter.Width(shape)..]
    ensures |bs| < SdlWriter.Width(shape) ==> TakeElem(shape, bs) == Fail(Truncated)
  {
    if shape.Words? {
      WordsTake(shape.n, bs);
    }
  }

  method ParseElems(shape: Shape, count: nat, buf: Bytes) returns (r: Parsed<seq<Elem>>)
    requires !shape.Unsendable?
    ensures r == TakeElems(shape, count, buf)
  {
    hide TakeElem, SdlWriter.Width;
    if !shape.KeyShape? && |buf| < count * SdlWriter.Width(shape) {
      TooShort(shape, count, buf);
      return Fail(Truncated);
    }
    var items, rest: Bytes := [], buf;
    OntoNone(TakeElems(shape, count, buf));
    for j := 0 to count
      invariant TakeElems(shape, count, buf) == Onto(items, TakeElems(shape, count - j, rest))
    {
      var e := TakeElem(shape, rest);
      if e.Fail? {
        return Fail(e.why);
      }
      OntoMore(items, e.value, TakeElems(shape, count - j - 1, e.rest));
      items, rest := items + [e.value], e.rest;
    }
    assert items + [] == items;
    r := Ok(items, rest);
  }

  /** Skip a notification hint; an empty string has just its length. */
  method ParseHint(present: bool, buf: Bytes) returns (r: Parsed<()>)
    ensures r == TakeHint(present, buf)
  {
    if !present {
      return Ok((), buf);
    }
    if |buf| < 3 {
      return Fail(Truncated);
    }
    var offset := 1;
    if Read16(buf, offset) != 0xF000 {
      offset := offset + Min(2 + Read16(buf, offset) % 0x1000, |buf| - offset);
    } else {
      offset := offset + 2;
    }
    assert buf[offset..] == buf[1..][offset - 1..];
    r := Ok((), buf[offset..]);
  }

  /** Index, hint, flags and time of an entry; what is left is checked before each read. */
  method ParseLead(isVar: bool, indexed: bool, i: nat, limit: nat, buf: Bytes) returns (r: Parsed<Lead>)
    ensures r == TakeLead(isVar, indexed, i, limit, buf)
  {
    hide TakeHint;
    if |buf| < 1 {
      return Fail(Truncated);
    }
    var index: nat, rest := i, buf;
    if indexed {
      index, rest := buf[0], buf[1..];
    }
    if index >= limit {
      return Fail(BadIndex(index));
    }
    if |rest| < 1 {
      return Fail(Truncated);
    }
    var hint := ParseHint(if isVar then HasNotificationInfo(rest[0]) else rest[0] == HAS_NOTIFICATION_INFO, rest[1..]);
    if hint.Fail? {
      return Fail(hint.why);
    }
    rest := hint.rest;
    if |rest| < 1 {
      return Fail(Truncated);
    }
    var flags := rest[0];
    rest := rest[1..];
    var stamp := NoStamp;
    if HasTimeStamp(flags) {
      if |rest| < 8 {
        return Fail(Truncated);
      }
      stamp, rest := Stamp(Read32(rest, 0), Read32(rest, 4)), rest[8..];
    }
    r := Ok(Lead(index, flags, stamp), rest);
  }

  method ParseVar(d: Desc, indexed: bool, i: nat, buf: Bytes) returns (r: Parsed<Var>)
    ensures r == TakeVar(d, indexed, i, buf)
  {
    hide TakeLead, TakeElems;
    var head := ParseLead(true, indexed, i, |d.vars|, buf);
    if head.Fail? {
      return Fail(head.why);
    }
    var Ok(lead, rest) := head;
    LeadIndex(true, indexed, i, |d.vars|, buf);
    var dv := d.vars[lead.index];
    if SameAsDefault(lead.flags) {
      return Ok(Entry(lead.index, lead.flags, lead.stamp, 0, []), rest);
    }
    var count := dv.count;
    if count == 0 {
      if |rest| < 4 {
        return Fail(Truncated);
      }
      count, rest := Read32(rest, 0), rest[4..];
    }
    if dv.vtype.Creatable? {
      return Fail(CreatableSent);
    }
    var items := ParseElems(ShapeOf(dv.vtype), count, rest);
    if items.Fail? {
      return Fail(items.why);
    }
    r := Ok(Entry(lead.index, lead.flags, lead.stamp, count, items.value), items.rest);
  }

  lemma LeadIndex(isVar: bool, indexed: bool, i: nat, limit: nat, bs: Bytes)
    ensures var p := TakeLead(isVar, indexed, i, limit, bs); p.Ok? ==> p.value.index < limit
  {
  }

  method ParseSub(d: Desc, indexed: bool, i: nat, buf: Bytes) returns (r: Parsed<Sub>)
    ensures r == TakeSub(d, indexed, i, buf)
    decreases d, 0
  {
    hide TakeLead, TakeState;
    var head := ParseLead(false, indexed, i, |d.structs|, buf);
    if head.Fail? {
      return Fail(head.why);
    }
    var Ok(lead, rest) := head;
    LeadIndex(false, indexed, i, |d.structs|, buf);
    var sd := d.structs[lead.index];
    if SameAsDefault(lead.flags) {
      return Ok(Entry(lead.index, lead.flags, lead.stamp, 0, []), rest);
    }
    var count := sd.count;
    if count == 0 {
      if |rest| < 4 {
        return Fail(Truncated);
      }
      count, rest := Read32(rest, 0), rest[4..];
    }
    if |rest| < 1 {
      return Fail(Truncated);
    }
    rest := rest[1..];
    ghost var start := rest;
    var children := [];
    OntoNone(TakeStates(sd.desc, count, start));
    for j := 0 to count
      invariant TakeStates(sd.desc, count, start) == Onto(children, TakeStates(sd.desc, count - j, rest))
    {
      var one := RecursiveParse(sd.desc, rest);
      if one.Fail? {
        return Fail(one.why);
      }
      OntoMore(children, one.value, TakeStates(sd.desc, count - j - 1, one.rest));
      children, rest := children + [one.value], one.rest;
    }
    assert children + [] == children;
    r := Ok(Entry(lead.index, lead.flags, lead.stamp, count, children), rest);
  }

  method RecursiveParse(d: Desc, buf: Bytes) returns (r: Parsed<State>)
    ensures r == TakeState(d, buf)
    decreases d, 1
  {
    hide TakeVar, TakeSub;
    if |buf| < 4 {
      return Fail(Truncated);
    }
    var flag := Read16(buf, 0);
    var n: nat, rest := buf[3], buf[4..];
    var indexed := n < |d.vars|;
    var vars := [];
    OntoNone(TakeVars(d, n, 0, rest));
    for i := 0 to n
      invariant TakeVars(d, n, 0, buf[4..]) == Onto(vars, TakeVars(d, n, i, rest))
    {
      var v := ParseVar(d, indexed, i, rest);
      if v.Fail? {
        return Fail(v.why);
      }
      OntoMore(vars, Some(v.value), TakeVars(d, n, i + 1, v.rest));
      vars, rest := vars + [Some(v.value)], v.rest;
    }
    assert vars + [] == vars;
    if |rest| < 1 {
      return Fail(Truncated);
    }
    n, rest := rest[0], rest[1..];
    ghost var start := rest;
    indexed := n < |d.structs|;
    var structs := [];
    OntoNone(TakeSubs(d, n, 0, start));
    for i := 0 to n
      invariant TakeSubs(d, n, 0, start) == Onto(structs, TakeSubs(d, n, i, rest))
    {
      var c := ParseSub(d, indexed, i, rest);
      if c.Fail? {
        return Fail(c.why);
      }
      OntoMore(structs, Some(c.value), TakeSubs(d, n, i + 1, c.rest));
      structs, rest := structs + [Some(c.value)], c.rest;
    }
    assert structs + [] == structs;
    r := Ok(State(flag, vars, structs), rest);
  }
}

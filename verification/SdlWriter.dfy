/** recursive_write and recursive_len: an offset moves through the caller's buffer, and every
    piece is preceded by a check that it fits. */
module SdlWriter {
  import opened Wire
  import opened PlKeys
  import opened SdlModel

  function Width(shape: Shape): nat
    requires !shape.KeyShape?
  {
    match shape
    case Words(n) => 4 * n
    case Half => 2
    case Octets(n) => n
    case Truth => 1
    case Unsendable => 0
  }

  lemma ElemWidth(e: Elem, shape: Shape)
    requires Fits(e, shape) && !shape.KeyShape?
    ensures |EncElem(e)| == Width(shape)
  {
  }

  lemma {:induction false} FixedWidth(es: seq<Elem>, shape: Shape)
    requires AllFit(es, shape) && !shape.KeyShape?
    ensures |EncElems(es, shape)| == |es| * Width(shape)
  {
    hide EncElem, Fits;
    if es != [] {
      ElemWidth(es[0], shape);
      FixedWidth(es[1..], shape);
      var n, w := |es| - 1, Width(shape);
      assert n * w + w == (n + 1) * w;
    }
  }

  /** Writers return the new offset, or -1 when the buffer is too small. */
  function Reach(x: Bytes, at: nat, end: nat): int {
    if at + |x| <= end then at + |x| else -1
  }

  method WriteElems(es: seq<Elem>, shape: Shape, buf: array<Byte>, at: nat, end: nat) returns (off: int)
    requires AllFit(es, shape) && at <= end <= buf.Length
    modifies buf
    ensures off == Reach(EncElems(es, shape), at, end)
    ensures off >= 0 ==> Wrote(buf[..], old(buf[..]), at, EncElems(es, shape))
    ensures SameOutside(buf[..], old(buf[..]), at, end)
  {
    hide EncElem, Width, SameOutside;
    ghost var was, x: Bytes := buf[..], [];
    WroteInside(was, was, at, x, end);
    if !shape.KeyShape? {
      FixedWidth(es, shape);
      if end < at + |es| * Width(shape) {
        return -1;
      }
    }
    off := at;
    for j := 0 to |es|
      invariant at <= off == at + |x| <= end
      invariant Wrote(buf[..], was, at, x)
      invariant x + EncElems(es[j..], shape) == EncElems(es, shape)
    {
      assert es[j..][0] == es[j] && es[j..][1..] == es[j + 1..];
      var e := EncElem(es[j]);
      Assoc(x, e, EncElems(es[j + 1..], shape));
      if shape.KeyShape? && end < off + |e| {
        WroteInside(buf[..], was, at, x, end);
        return -1;
      }
      Append(buf, off, e, was, at, x);
      off, x := off + |e|, x + e;
    }
    assert es[|es|..] == [];
    assert x == EncElems(es, shape);
    WroteInside(buf[..], was, at, x, end);
  }

  /** Writing y after x is writing x + y, and fails exactly when that does not fit. */
  lemma Then(was: Bytes, mid: Bytes, now: Bytes, at: nat, x: Bytes, y: Bytes, end: nat, off: int)
    requires Wrote(mid, was, at, x) && at + |x| <= end <= |was|
    requires off == Reach(y, at + |x|, end) && SameOutside(now, mid, at + |x|, end)
    requires off >= 0 ==> Wrote(now, mid, at + |x|, y)
    ensures off == Reach(x + y, at, end) && SameOutside(now, was, at, end)
    ensures off >= 0 ==> Wrote(now, was, at, x + y)
  {
    SpoiltInside(was, mid, now, at, x, end);
    if off >= 0 {
      WroteMore(was, mid, now, at, x, y);
    }
  }

  /** A checked store of a few bytes. */
  method WriteBytes(x: Bytes, buf: array<Byte>, at: nat, end: nat) returns (off: int)
    requires at <= end <= buf.Length
    modifies buf
    ensures off == Reach(x, at, end)
    ensures off >= 0 ==> Wrote(buf[..], old(buf[..]), at, x)
    ensures SameOutside(buf[..], old(buf[..]), at, end)
  {
    if end < at + |x| {
      return -1;
    }
    Put(buf, at, x);
    off := at + |x|;
  }

  method WriteMarks(flags: Byte, stamp: Stamp, buf: array<Byte>, at: nat, end: nat) returns (off: int)
    requires at <= end <= buf.Length
    modifies buf
    ensures off == Reach(EncMarks(flags, stamp), at, end)
    ensures off >= 0 ==> Wrote(buf[..], old(buf[..]), at, EncMarks(flags, stamp))
    ensures SameOutside(buf[..], old(buf[..]), at, end)
  {
    hide Wrote, SameOutside;
    var marks: Bytes := [HAS_NOTIFICATION_INFO, 0, 0, 0xF0, flags];
    ghost var was := buf[..];
    assert EncMarks(flags, stamp) == marks + EncStamp(flags, stamp);
    off := WriteBytes(marks, buf, at, end);
    if off < 0 {
      return -1;
    }
    if HasTimeStamp(flags) {
      ghost var mid := buf[..];
      off := WriteBytes(Le32(stamp.sec) + Le32(stamp.usec), buf, off, end);
      Then(was, mid, buf[..], at, marks, EncStamp(flags, stamp), end, off);
    } else {
      assert EncMarks(flags, stamp) == marks;
    }
  }

  method WriteLead(index: nat, flags: Byte, stamp: Stamp, indexed: bool, buf: array<Byte>, at: nat, end: nat)
    returns (off: int)
    requires at <= end <= buf.Length
    modifies buf
    ensures off == Reach(EncLead(index, flags, stamp, indexed), at, end)
    ensures off >= 0 ==> Wrote(buf[..], old(buf[..]), at, EncLead(index, flags, stamp, indexed))
    ensures SameOutside(buf[..], old(buf[..]), at, end)
  {
    hide EncMarks, Wrote, SameOutside;
    if !indexed {
      assert EncLead(index, flags, stamp, indexed) == EncMarks(flags, stamp);
      off := WriteMarks(flags, stamp, buf, at, end);
      return;
    }
    ghost var was := buf[..];
    off := WriteBytes([index % 0x100], buf, at, end);
    if off < 0 {
      return -1;
    }
    ghost var mid := buf[..];
    off := WriteMarks(flags, stamp, buf, off, end);
    Then(was, mid, buf[..], at, [index % 0x100], EncMarks(flags, stamp), end, off);
  }

  method WriteCount(fixed: nat, count: nat, buf: array<Byte>, at: nat, end: nat) returns (off: int)
    requires at <= end <= buf.Length
    modifies buf
    ensures off == Reach(EncCount(fixed, count), at, end)
    ensures off >= 0 ==> Wrote(buf[..], old(buf[..]), at, EncCount(fixed, count))
    ensures SameOutside(buf[..], old(buf[..]), at, end)
  {
    off := at;
    if fixed == 0 {
      if end < at + 4 {
        return -1;
      }
      Put(buf, at, Le32(count % 0x1_0000_0000));
      off := at + 4;
    }
  }

  method WriteVarData(d: Desc, v: Var, buf: array<Byte>, at: nat, end: nat) returns (off: int)
    requires VarOk(d, v) && !SameAsDefault(v.flags) && at <= end <= buf.Length
    modifies buf
    ensures off == Reach(EncVarData(d, v), at, end)
    ensures off >= 0 ==> Wrote(buf[..], old(buf[..]), at, EncVarData(d, v))
    ensures SameOutside(buf[..], old(buf[..]), at, end)
  {
    hide EncCount, EncElems, Wrote, SameOutside;
    var dv := d.vars[v.index];
    ghost var was := buf[..];
    off := WriteCount(dv.count, v.count, buf, at, end);
    if off < 0 {
      return -1;
    }
    ghost var mid := buf[..];
    off := WriteElems(v.items, ShapeOf(dv.vtype), buf, off, end);
    Then(was, mid, buf[..], at, EncCount(dv.count, v.count), EncElems(v.items, ShapeOf(dv.vtype)), end, off);
  }

  method WriteVar(d: Desc, v: Var, indexed: bool, buf: array<Byte>, at: nat, end: nat) returns (off: int)
    requires VarOk(d, v) && at <= end <= buf.Length
    modifies buf
    ensures off == Reach(EncVar(d, v, indexed), at, end)
    ensures off >= 0 ==> Wrote(buf[..], old(buf[..]), at, EncVar(d, v, indexed))
    ensures SameOutside(buf[..], old(buf[..]), at, end)
  {
    hide EncLead, Wrote, SameOutside, VarOk;
    ghost var was, lead := buf[..], EncLead(v.index, v.flags, v.stamp, indexed);
    off := WriteLead(v.index, v.flags, v.stamp, indexed, buf, at, end);
    if off < 0 {
      return -1;
    }
    if SameAsDefault(v.flags) {
      assert EncVar(d, v, indexed) == lead;
      return;
    }
    ghost var mid := buf[..];
    off := WriteVarData(d, v, buf, off, end);
    Then(was, mid, buf[..], at, lead, EncVarData(d, v), end, off);
  }

  method WriteVars(d: Desc, vs: seq<Option<Var>>, indexed: bool, buf: array<Byte>, at: nat, end: nat) returns (off: int)
    requires VarsOk(d, vs) && at <= end <= buf.Length
    modifies buf
    ensures off == Reach(EncVars(d, vs, indexed), at, end)
    ensures off >= 0 ==> Wrote(buf[..], old(buf[..]), at, EncVars(d, vs, indexed))
    ensures SameOutside(buf[..], old(buf[..]), at, end)
  {
    hide EncVar, Wrote, SameOutside, VarOk;
    ghost var was, x: Bytes := buf[..], [];
    StartsEmpty(was, at, end);
    off := at;
    for i := 0 to |vs|
      invariant at <= off == at + |x| <= end
      invariant Wrote(buf[..], was, at, x) && SameOutside(buf[..], was, at, end)
      invariant x + EncVars(d, vs[i..], indexed) == EncVars(d, vs, indexed)
    {
      assert vs[i..][0] == vs[i] && vs[i..][1..] == vs[i + 1..];
      if Live(vs[i]) {
        ghost var mid, y := buf[..], EncVar(d, vs[i].value, indexed);
        Assoc(x, y, EncVars(d, vs[i + 1..], indexed));
        off := WriteVar(d, vs[i].value, indexed, buf, off, end);
        Then(was, mid, buf[..], at, x, y, end, off);
        if off < 0 {
          return -1;
        }
        x := x + y;
      }
    }
    assert vs[|vs|..] == [];
    assert x == EncVars(d, vs, indexed);
  }

  lemma StartsEmpty(was: Bytes, at: nat, end: nat)
    requires at <= end <= |was|
    ensures Wrote(was, was, at, []) && SameOutside(was, was, at, end)
  {
  }

  method WriteStates(d: Desc, cs: seq<State>, buf: array<Byte>, at: nat, end: nat) returns (off: int)
    requires forall j | 0 <= j < |cs| :: StateOk(d, cs[j])
    requires at <= end <= buf.Length
    modifies buf
    ensures off == Reach(EncStates(d, cs), at, end)
    ensures off >= 0 ==> Wrote(buf[..], old(buf[..]), at, EncStates(d, cs))
    ensures SameOutside(buf[..], old(buf[..]), at, end)
    decreases cs, 0
  {
    hide EncState, Wrote, SameOutside, StateOk;
    ghost var was, x: Bytes := buf[..], [];
    StartsEmpty(was, at, end);
    off := at;
    for j := 0 to |cs|
      invariant at <= off == at + |x| <= end
      invariant Wrote(buf[..], was, at, x) && SameOutside(buf[..], was, at, end)
      invariant x + EncStates(d, cs[j..]) == EncStates(d, cs)
    {
      assert cs[j..][0] == cs[j] && cs[j..][1..] == cs[j + 1..];
      ghost var mid, y := buf[..], EncState(d, cs[j]);
      Assoc(x, y, EncStates(d, cs[j + 1..]));
      var ret := RecursiveWrite(d, cs[j], buf, off, end);
      off := if ret < 0 then ret else off + ret;
      Then(was, mid, buf[..], at, x, y, end, off);
      if ret < 0 {
        return ret;
      }
      x := x + y;
    }
    assert cs[|cs|..] == [];
    assert x == EncStates(d, cs);
  }

  method WriteSubData(d: Desc, c: Sub, buf: array<Byte>, at: nat, end: nat) returns (off: int)
    requires SubOk(d, c) && !SameAsDefault(c.flags) && at <= end <= buf.Length
    modifies buf
    ensures off == Reach(EncSubData(d, c), at, end)
    ensures off >= 0 ==> Wrote(buf[..], old(buf[..]), at, EncSubData(d, c))
    ensures SameOutside(buf[..], old(buf[..]), at, end)
    decreases c, 0
  {
    hide EncCount, EncStates, Wrote, SameOutside;
    var sd := d.structs[c.index];
    ghost var was, count := buf[..], EncCount(sd.count, c.count);
    ghost var lead: Bytes, kids := [c.count % 0x100], EncStates(sd.desc, c.items);
    Assoc(count, lead, kids);
    off := WriteCount(sd.count, c.count, buf, at, end);
    if off < 0 {
      return -1;
    }
    ghost var mid := buf[..];
    off := WriteBytes([c.count % 0x100], buf, off, end);
    Then(was, mid, buf[..], at, count, lead, end, off);
    if off < 0 {
      return -1;
    }
    mid := buf[..];
    off := WriteStates(sd.desc, c.items, buf, off, end);
    Then(was, mid, buf[..], at, count + lead, kids, end, off);
  }

  method WriteSub(d: Desc, c: Sub, indexed: bool, buf: array<Byte>, at: nat, end: nat) returns (off: int)
    requires SubOk(d, c) && at <= end <= buf.Length
    modifies buf
    ensures off == Reach(EncSub(d, c, indexed), at, end)
    ensures off >= 0 ==> Wrote(buf[..], old(buf[..]), at, EncSub(d, c, indexed))
    ensures SameOutside(buf[..], old(buf[..]), at, end)
    decreases c, 1
  {
    hide EncLead, Wrote, SameOutside, SubOk;
    ghost var was, lead := buf[..], EncLead(c.index, c.flags, c.stamp, indexed);
    off := WriteLead(c.index, c.flags, c.stamp, indexed, buf, at, end);
    if off < 0 {
      return -1;
    }
    if SameAsDefault(c.flags) {
      assert EncSub(d, c, indexed) == lead;
      return;
    }
    ghost var mid := buf[..];
    off := WriteSubData(d, c, buf, off, end);
    Then(was, mid, buf[..], at, lead, EncSubData(d, c), end, off);
  }

  method WriteSubs(d: Desc, ss: seq<Option<Sub>>, indexed: bool, buf: array<Byte>, at: nat, end: nat) returns (off: int)
    requires SubsOk(d, ss) && at <= end <= buf.Length
    modifies buf
    ensures off == Reach(EncSubs(d, ss, indexed), at, end)
    ensures off >= 0 ==> Wrote(buf[..], old(buf[..]), at, EncSubs(d, ss, indexed))
    ensures SameOutside(buf[..], old(buf[..]), at, end)
    decreases ss, 0
  {
    hide EncSub, Wrote, SameOutside, SubOk;
    ghost var was, x: Bytes := buf[..], [];
    StartsEmpty(was, at, end);
    off := at;
    for i := 0 to |ss|
      invariant at <= off == at + |x| <= end
      invariant Wrote(buf[..], was, at, x) && SameOutside(buf[..], was, at, end)
      invariant x + EncSubs(d, ss[i..], indexed) == EncSubs(d, ss, indexed)
    {
      assert ss[i..][0] == ss[i] && ss[i..][1..] == ss[i + 1..];
      if Live(ss[i]) {
        assert ss[i].value < ss[i];
        ghost var mid, y := buf[..], EncSub(d, ss[i].value, indexed);
        Assoc(x, y, EncSubs(d, ss[i + 1..], indexed));
        off := WriteSub(d, ss[i].value, indexed, buf, off, end);
        Then(was, mid, buf[..], at, x, y, end, off);
        if off < 0 {
          return -1;
        }
        x := x + y;
      }
    }
    assert ss[|ss|..] == [];
    assert x == EncSubs(d, ss, indexed);
  }

  method CountLive<T>(slots: seq<Option<Entry<T>>>) returns (n: nat)
    ensures n == Count(slots)
  {
    n := 0;
    for i := 0 to |slots|
      invariant n + Count(slots[i..]) == Count(slots)
    {
      assert slots[i..][1..] == slots[i + 1..];
      if Live(slots[i]) {
        n := n + 1;
      }
    }
  }

  method WriteStructs(d: Desc, ss: seq<Option<Sub>>, buf: array<Byte>, at: nat, end: nat) returns (off: int)
    requires SubsOk(d, ss) && at <= end <= buf.Length
    modifies buf
    ensures off == Reach(EncStructs(d, ss), at, end)
    ensures off >= 0 ==> Wrote(buf[..], old(buf[..]), at, EncStructs(d, ss))
    ensures SameOutside(buf[..], old(buf[..]), at, end)
    decreases ss, 1
  {
    hide EncSubs, SubsOk, Wrote, SameOutside;
    var n := CountLive(ss);
    ghost var was, lead: Bytes := buf[..], [n % 0x100];
    off := WriteBytes([n % 0x100], buf, at, end);
    if off < 0 {
      return -1;
    }
    ghost var mid := buf[..];
    off := WriteSubs(d, ss, n < |d.structs|, buf, off, end);
    Then(was, mid, buf[..], at, lead, EncSubs(d, ss, n < |d.structs|), end, off);
  }

  method WriteLevels(d: Desc, s: State, indexed: bool, buf: array<Byte>, at: nat, end: nat) returns (off: int)
    requires StateOk(d, s) && at <= end <= buf.Length
    modifies buf
    ensures off == Reach(EncVars(d, s.vars, indexed) + EncStructs(d, s.structs), at, end)
    ensures off >= 0 ==> Wrote(buf[..], old(buf[..]), at, EncVars(d, s.vars, indexed) + EncStructs(d, s.structs))
    ensures SameOutside(buf[..], old(buf[..]), at, end)
    decreases s, 0
  {
    hide EncVars, EncStructs, VarsOk, SubsOk, Wrote, SameOutside;
    ghost var was := buf[..];
    off := WriteVars(d, s.vars, indexed, buf, at, end);
    if off < 0 {
      return -1;
    }
    ghost var mid := buf[..];
    off := WriteStructs(d, s.structs, buf, off, end);
    Then(was, mid, buf[..], at, EncVars(d, s.vars, indexed), EncStructs(d, s.structs), end, off);
  }

  /** Returns how many bytes were written, or -1 exactly when the state does not fit; nothing
      outside the buffer's window is touched either way. */
  method RecursiveWrite(d: Desc, s: State, buf: array<Byte>, at: nat, end: nat) returns (ret: int)
    requires StateOk(d, s) && at <= end <= buf.Length
    modifies buf
    ensures ret == if |EncState(d, s)| <= end - at then |EncState(d, s)| else -1
    ensures ret >= 0 ==> Wrote(buf[..], old(buf[..]), at, EncState(d, s))
    ensures SameOutside(buf[..], old(buf[..]), at, end)
    decreases s, 1
  {
    hide EncVars, EncStructs, VarsOk, SubsOk, Wrote, SameOutside;
    var n := CountLive(s.vars);
    ghost var was, body := buf[..], EncVars(d, s.vars, n < |d.vars|) + EncStructs(d, s.structs);
    var off := WriteBytes(Le16(s.flag) + [IO_VERSION, n % 0x100], buf, at, end);
    if off < 0 {
      return -1;
    }
    ghost var mid := buf[..];
    off := WriteLevels(d, s, n < |d.vars|, buf, off, end);
    Then(was, mid, buf[..], at, EncHead(s), body, end, off);
    ret := if off < 0 then -1 else off - at;
  }

  // ---------- recursive_len ----------

  method KeysLen(es: seq<Elem>) returns (total: nat)
    requires AllFit(es, KeyShape)
    ensures total == |EncElems(es, KeyShape)|
  {
    total := 0;
    for j := 0 to |es|
      invariant total + |EncElems(es[j..], KeyShape)| == |EncElems(es, KeyShape)|
    {
      assert es[j..][0] == es[j] && es[j..][1..] == es[j + 1..];
      KeyLenExact(es[j].key);
      total := total + KeyLen(es[j].key);
    }
  }

  method VarLen(d: Desc, v: Var, indexed: bool) returns (total: nat)
    requires VarOk(d, v)
    ensures total == |EncVar(d, v, indexed)|
  {
    hide EncElems, Width;
    total := (if indexed then 1 else 0) + 5 + (if HasTimeStamp(v.flags) then 8 else 0);
    if !SameAsDefault(v.flags) {
      var dv := d.vars[v.index];
      if dv.count == 0 {
        total := total + 4;
      }
      if dv.vtype.Key? {
        var keys := KeysLen(v.items);
        total := total + keys;
      } else {
        FixedWidth(v.items, ShapeOf(dv.vtype));
        total := total + v.count * Width(ShapeOf(dv.vtype));
      }
    }
  }

  method SubLen(d: Desc, c: Sub, indexed: bool) returns (total: nat)
    requires SubOk(d, c)
    ensures total == |EncSub(d, c, indexed)|
    decreases c, 0
  {
    hide StateOk, EncState;
    total := (if indexed then 1 else 0) + 5 + (if HasTimeStamp(c.flags) then 8 else 0);
    if !SameAsDefault(c.flags) {
      var sd := d.structs[c.index];
      total := total + (if sd.count == 0 then 4 else 0) + 1;
      ghost var start := total;
      for j := 0 to |c.items|
        invariant total + |EncStates(sd.desc, c.items[j..])| == start + |EncStates(sd.desc, c.items)|
      {
        assert c.items[j..][0] == c.items[j] && c.items[j..][1..] == c.items[j + 1..];
        var one := RecursiveLen(sd.desc, c.items[j]);
        total := total + one;
      }
    }
  }

  /** The independent length calculator agrees with the writer on every state. */
  method RecursiveLen(d: Desc, s: State) returns (total: nat)
    requires StateOk(d, s)
    ensures total == |EncState(d, s)|
    decreases s
  {
    hide EncVar, VarOk, SubOk, EncSub;
    total := 5;
    var n := CountLive(s.vars);
    var indexed := n < |d.vars|;
    for i := 0 to |s.vars|
      invariant total + |EncVars(d, s.vars[i..], indexed)| == 5 + |EncVars(d, s.vars, indexed)|
    {
      assert s.vars[i..][0] == s.vars[i] && s.vars[i..][1..] == s.vars[i + 1..];
      if Live(s.vars[i]) {
        var one := VarLen(d, s.vars[i].value, indexed);
        total := total + one;
      }
    }
    ghost var start := total;
    n := CountLive(s.structs);
    indexed := n < |d.structs|;
    for i := 0 to |s.structs|
      invariant total + |EncSubs(d, s.structs[i..], indexed)| == start + |EncSubs(d, s.structs, indexed)|
    {
      assert s.structs[i..][0] == s.structs[i] && s.structs[i..][1..] == s.structs[i + 1..];
      if Live(s.structs[i]) {
        assert s.structs[i].value < s.structs[i];
        var one := SubLen(d, s.structs[i].value, indexed);
        total := total + one;
      }
    }
  }
}

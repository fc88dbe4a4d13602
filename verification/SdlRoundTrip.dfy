/** Reading back what was written: recursive_parse inverts recursive_write. */
module SdlRoundTrip {
  import opened Wire
  import opened PlKeys
  import opened SdlModel

  /** Without indices on the wire, the k-th entry sent must be entry k. */
  predicate InOrder<T>(slots: seq<Option<Entry<T>>>, k: nat) {
    slots == []
    || if Live(slots[0]) then slots[0].value.index == k && InOrder(slots[1..], k + 1) else InOrder(slots[1..], k)
  }

  predicate FitBytes<T>(slots: seq<Option<Entry<T>>>) {
    forall i | 0 <= i < |slots| && Live(slots[i]) :: slots[i].value.index < 0x100
  }

  /** The limits of the one-byte counts and indices, at one level. */
  predicate LevelSendable<T>(slots: seq<Option<Entry<T>>>, declared: nat) {
    Count(slots) < 0x100 && if Count(slots) < declared then FitBytes(slots) else InOrder(slots, 0)
  }

  predicate SubsSendable(d: Desc, ss: seq<Option<Sub>>)
    requires SubsOk(d, ss)
    decreases ss, 0
  {
    forall i | 0 <= i < |ss| && Live(ss[i]) ::
      assert ss[i].value < ss[i]; SubSendable(d, ss[i].value)
  }

  predicate SubSendable(d: Desc, c: Sub)
    requires SubOk(d, c)
    decreases c, 0
  {
    !SameAsDefault(c.flags) ==>
      forall j | 0 <= j < |c.items| :: Sendable(d.structs[c.index].desc, c.items[j])
  }

  /** The same, at every level of nesting. */
  predicate Sendable(d: Desc, s: State)
    requires StateOk(d, s)
    decreases s, 1
  {
    && LevelSendable(s.vars, |d.vars|)
    && LevelSendable(s.structs, |d.structs|)
    && SubsSendable(d, s.structs)
  }

  // ---------- Values ----------

  lemma {:induction false} WordsRoundTrip(ws: seq<U32>, rest: Bytes)
    ensures TakeWords(|ws|, EncWords(ws) + rest) == Ok(ws, rest)
  {
    if ws == [] {
      assert EncWords(ws) + rest == rest;
    } else {
      Assoc(Le32(ws[0]), EncWords(ws[1..]), rest);
      Take32Le32(ws[0], EncWords(ws[1..]) + rest);
      WordsRoundTrip(ws[1..], rest);
      assert [ws[0]] + ws[1..] == ws;
    }
  }

  lemma ElemRoundTrip(e: Elem, shape: Shape, rest: Bytes)
    requires Fits(e, shape) && rest != []
    ensures TakeElem(shape, EncElem(e) + rest) == Ok(ElemSent(e), rest)
  {
    match e
    case WordsElem(ws) => WordsRoundTrip(ws, rest);
    case HalfElem(h) => Take16Le16(h, rest);
    case OctetsElem(os) => TakeBytesBack(os, rest);
    case TruthElem(b) => assert (EncElem(e) + rest)[1..] == rest;
    case KeyElem(k) => KeyRoundTrip(k, rest);
  }

  lemma {:induction false} ElemsRoundTrip(es: seq<Elem>, shape: Shape, rest: Bytes)
    requires AllFit(es, shape) && rest != []
    ensures TakeElems(shape, |es|, EncElems(es, shape) + rest) == Ok(ElemsSent(es), rest)
  {
    hide EncElem, TakeElem, ElemSent;
    if es == [] {
      assert EncElems(es, shape) + rest == rest;
    } else {
      var tail := EncElems(es[1..], shape) + rest;
      Assoc(EncElem(es[0]), EncElems(es[1..], shape), rest);
      ElemRoundTrip(es[0], shape, tail);
      ElemsRoundTrip(es[1..], shape, rest);
      assert ElemsSent(es) == [ElemSent(es[0])] + ElemsSent(es[1..]);
    }
  }

  // ---------- Lead-ins ----------

  lemma StampRoundTrip(flags: Byte, stamp: Stamp, rest: Bytes)
    ensures TakeStamp(flags, EncStamp(flags, stamp) + rest) == Ok(StampSent(flags, stamp), rest)
  {
    var bs := EncStamp(flags, stamp) + rest;
    if HasTimeStamp(flags) {
      Assoc(Le32(stamp.sec), Le32(stamp.usec), rest);
      Take32Le32(stamp.sec, Le32(stamp.usec) + rest);
      Take32Le32(stamp.usec, rest);
      assert bs[4..] == Le32(stamp.usec) + rest;
      assert Read32(bs, 4) == Read32(bs[4..], 0);
      assert bs[8..] == rest;
    } else {
      assert bs == rest;
    }
  }

  lemma HintRoundTrip(rest: Bytes)
    ensures Take8([HAS_NOTIFICATION_INFO, 0, 0, 0xF0] + rest) == Ok(HAS_NOTIFICATION_INFO, [0, 0, 0xF0] + rest)
    ensures TakeHint(true, [0, 0, 0xF0] + rest) == Ok((), rest)
  {
    var hint: Bytes := [0, 0, 0xF0] + rest;
    assert ([HAS_NOTIFICATION_INFO, 0, 0, 0xF0] + rest)[1..] == hint;
    assert hint[1..] == [0, 0xF0] + rest;
    assert Read16(hint[1..], 0) == 0xF000;
    assert hint[1..][2..] == rest;
  }

  lemma MarksRoundTrip(isVar: bool, index: nat, flags: Byte, stamp: Stamp, rest: Bytes)
    ensures TakeMarks(isVar, index, EncMarks(flags, stamp) + rest)
            == Ok(Lead(index, flags, StampSent(flags, stamp)), rest)
  {
    var tail := EncStamp(flags, stamp) + rest;
    Assoc([flags], EncStamp(flags, stamp), rest);
    Assoc([HAS_NOTIFICATION_INFO, 0, 0, 0xF0], [flags] + EncStamp(flags, stamp), rest);
    HintRoundTrip([flags] + tail);
    assert ([flags] + tail)[1..] == tail;
    StampRoundTrip(flags, stamp, rest);
  }

  lemma LeadRoundTrip(isVar: bool, index: nat, flags: Byte, stamp: Stamp, indexed: bool, i: nat, limit: nat,
      rest: Bytes)
    requires index < limit && if indexed then index < 0x100 else index == i
    ensures TakeLead(isVar, indexed, i, limit, EncLead(index, flags, stamp, indexed) + rest)
            == Ok(Lead(index, flags, StampSent(flags, stamp)), rest)
  {
    var tail := EncMarks(flags, stamp) + rest;
    var bs := EncLead(index, flags, stamp, indexed) + rest;
    if indexed {
      Assoc([index], EncMarks(flags, stamp), rest);
      assert bs[1..] == tail;
    } else {
      assert bs == tail;
    }
    MarksRoundTrip(isVar, index, flags, stamp, rest);
  }

  lemma CountRoundTrip(fixed: nat, count: nat, rest: Bytes)
    requires CountOk(fixed, count)
    ensures TakeCount(fixed, EncCount(fixed, count) + rest) == Ok(count, rest)
  {
    if fixed == 0 {
      Take32Le32(count, rest);
    } else {
      assert EncCount(fixed, count) + rest == rest;
    }
  }

  // ---------- Variables ----------

  lemma VarRoundTrip(d: Desc, v: Var, indexed: bool, i: nat, rest: Bytes)
    requires VarOk(d, v) && rest != []
    requires if indexed then v.index < 0x100 else v.index == i
    ensures TakeVar(d, indexed, i, EncVar(d, v, indexed) + rest) == Ok(VarSent(v), rest)
  {
    var tail := EncVarData(d, v) + rest;
    Assoc(EncLead(v.index, v.flags, v.stamp, indexed), EncVarData(d, v), rest);
    LeadRoundTrip(true, v.index, v.flags, v.stamp, indexed, i, |d.vars|, tail);
    if SameAsDefault(v.flags) {
      assert tail == rest;
    } else {
      var dv := d.vars[v.index];
      var data := EncElems(v.items, ShapeOf(dv.vtype));
      Assoc(EncCount(dv.count, v.count), data, rest);
      CountRoundTrip(dv.count, v.count, data + rest);
      ElemsRoundTrip(v.items, ShapeOf(dv.vtype), rest);
    }
  }

  lemma {:induction false} VarsRoundTrip(d: Desc, vs: seq<Option<Var>>, n: nat, i: nat, rest: Bytes)
    requires VarsOk(d, vs) && rest != [] && i + Count(vs) == n
    requires if n < |d.vars| then FitBytes(vs) else InOrder(vs, i)
    ensures TakeVars(d, n, i, EncVars(d, vs, n < |d.vars|) + rest) == Ok(VarsSent(vs), rest)
    decreases |vs|
  {
    hide EncVar, TakeVar, VarSent, VarOk;
    var indexed := n < |d.vars|;
    if vs == [] {
      assert EncVars(d, vs, indexed) + rest == rest;
    } else if Live(vs[0]) {
      var v := vs[0].value;
      assert VarOk(d, v);
      var tail := EncVars(d, vs[1..], indexed) + rest;
      var bs := EncVars(d, vs, indexed) + rest;
      assert bs == EncVar(d, v, indexed) + tail by {
        Assoc(EncVar(d, v, indexed), EncVars(d, vs[1..], indexed), rest);
      }
      VarRoundTrip(d, v, indexed, i, tail);
      VarsRoundTrip(d, vs[1..], n, i + 1, rest);
      assert TakeVar(d, indexed, i, bs) == Ok(VarSent(v), tail);
    } else {
      VarsRoundTrip(d, vs[1..], n, i, rest);
    }
  }

  // ---------- Structs and whole states ----------

  lemma {:induction false} StatesRoundTrip(d: Desc, cs: seq<State>, rest: Bytes)
    requires forall j | 0 <= j < |cs| :: StateOk(d, cs[j]) && Sendable(d, cs[j])
    ensures TakeStates(d, |cs|, EncStates(d, cs) + rest) == Ok(StatesSent(cs), rest)
    decreases cs, 0
  {
    if cs == [] {
      assert EncStates(d, cs) + rest == rest;
    } else {
      Assoc(EncState(d, cs[0]), EncStates(d, cs[1..]), rest);
      StateRoundTrip(d, cs[0], EncStates(d, cs[1..]) + rest);
      StatesRoundTrip(d, cs[1..], rest);
    }
  }

  lemma {:induction false} SubRoundTrip(d: Desc, c: Sub, indexed: bool, i: nat, rest: Bytes)
    requires SubOk(d, c) && SubSendable(d, c)
    requires if indexed then c.index < 0x100 else c.index == i
    ensures TakeSub(d, indexed, i, EncSub(d, c, indexed) + rest) == Ok(SubSent(c), rest)
    decreases c, 0
  {
    var tail := EncSubData(d, c) + rest;
    Assoc(EncLead(c.index, c.flags, c.stamp, indexed), EncSubData(d, c), rest);
    LeadRoundTrip(false, c.index, c.flags, c.stamp, indexed, i, |d.structs|, tail);
    if SameAsDefault(c.flags) {
      assert tail == rest;
    } else {
      var sd := d.structs[c.index];
      var kids := EncStates(sd.desc, c.items);
      var lead: Bytes := [c.count % 0x100];
      Assoc(EncCount(sd.count, c.count), lead + kids, rest);
      Assoc(lead, kids, rest);
      CountRoundTrip(sd.count, c.count, lead + (kids + rest));
      assert (lead + (kids + rest))[1..] == kids + rest;
      StatesRoundTrip(sd.desc, c.items, rest);
    }
  }

  lemma {:induction false} SubsRoundTrip(d: Desc, ss: seq<Option<Sub>>, n: nat, i: nat, rest: Bytes)
    requires SubsOk(d, ss) && SubsSendable(d, ss) && i + Count(ss) == n
    requires if n < |d.structs| then FitBytes(ss) else InOrder(ss, i)
    ensures TakeSubs(d, n, i, EncSubs(d, ss, n < |d.structs|) + rest) == Ok(SubsSent(ss), rest)
    decreases ss, 0
  {
    hide EncSub, TakeSub, SubSent, SubOk, SubSendable;
    var indexed := n < |d.structs|;
    if ss == [] {
      assert EncSubs(d, ss, indexed) + rest == rest;
    } else if Live(ss[0]) {
      var c := ss[0].value;
      assert c < ss[0];
      assert SubOk(d, c) && SubSendable(d, c);
      var tail := EncSubs(d, ss[1..], indexed) + rest;
      var bs := EncSubs(d, ss, indexed) + rest;
      assert bs == EncSub(d, c, indexed) + tail by {
        Assoc(EncSub(d, c, indexed), EncSubs(d, ss[1..], indexed), rest);
      }
      SubRoundTrip(d, c, indexed, i, tail);
      SubsRoundTrip(d, ss[1..], n, i + 1, rest);
      assert TakeSub(d, indexed, i, bs) == Ok(SubSent(c), tail);
    } else {
      SubsRoundTrip(d, ss[1..], n, i, rest);
    }
  }

  /** Parsing what was written consumes exactly those bytes and returns exactly the entries
      that are not at their default or carry a time, at every level of nesting. */
  lemma {:induction false} StateRoundTrip(d: Desc, s: State, rest: Bytes)
    requires StateOk(d, s) && Sendable(d, s)
    ensures TakeState(d, EncState(d, s) + rest) == Ok(StateSent(s), rest)
    decreases s, 1
  {
    hide EncVars, TakeVars, VarsSent, VarsOk, EncSubs, TakeSubs, SubsSent, SubsOk, SubsSendable, Count;
    var nv, ns := Count(s.vars), Count(s.structs);
    var subs := EncSubs(d, s.structs, ns < |d.structs|);
    var structs: Bytes := EncStructs(d, s.structs);
    var vars := EncVars(d, s.vars, nv < |d.vars|);
    Assoc(EncHead(s), vars + structs, rest);
    Assoc(vars, structs, rest);
    var bs := EncState(d, s) + rest;
    assert bs == EncHead(s) + (vars + (structs + rest));
    Take16Le16(s.flag, [IO_VERSION, nv] + (vars + (structs + rest)));
    assert bs == Le16(s.flag) + ([IO_VERSION, nv] + (vars + (structs + rest)));
    assert bs[4..] == vars + (structs + rest) && bs[3] == nv;
    VarsRoundTrip(d, s.vars, nv, 0, structs + rest);
    Assoc([ns], subs, rest);
    assert (structs + rest)[0] == ns && (structs + rest)[1..] == subs + rest;
    SubsRoundTrip(d, s.structs, ns, 0, rest);
  }

  // ---------- States as the server keeps them ----------

  /** Slot numbers go up. */
  predicate Increasing<T>(slots: seq<Option<Entry<T>>>, from: nat) {
    slots == []
    || if Live(slots[0]) then slots[0].value.index >= from && Increasing(slots[1..], slots[0].value.index + 1)
       else Increasing(slots[1..], from)
  }

  predicate Below<T>(slots: seq<Option<Entry<T>>>, limit: nat) {
    forall i | 0 <= i < |slots| && Live(slots[i]) :: slots[i].value.index < limit
  }

  /** Increasing slot numbers below a limit are too few, or leave no gap. */
  lemma {:induction false} IncreasingCount<T>(slots: seq<Option<Entry<T>>>, from: nat, limit: nat)
    requires from <= limit && Increasing(slots, from) && Below(slots, limit)
    ensures Count(slots) <= limit - from
    ensures Count(slots) == limit - from ==> InOrder(slots, from)
  {
    if slots != [] {
      var next := if Live(slots[0]) then slots[0].value.index + 1 else from;
      assert Live(slots[0]) ==> slots[0].value.index < limit;
      IncreasingCount(slots[1..], next, limit);
    }
  }

  predicate SubOrdered(d: Desc, c: Sub)
    requires SubOk(d, c)
    decreases c, 0
  {
    !SameAsDefault(c.flags) ==>
      forall j | 0 <= j < |c.items| :: Ordered(d.structs[c.index].desc, c.items[j])
  }

  /** At most 255 variables and structs are declared, and slots are in index order, at every level. */
  predicate Ordered(d: Desc, s: State)
    requires StateOk(d, s)
    decreases s, 1
  {
    && |d.vars| < 0x100 && |d.structs| < 0x100
    && Increasing(s.vars, 0) && Increasing(s.structs, 0)
    && SubsOrdered(d, s.structs)
  }

  predicate SubsOrdered(d: Desc, ss: seq<Option<Sub>>)
    requires SubsOk(d, ss)
    decreases ss, 0
  {
    forall i | 0 <= i < |ss| && Live(ss[i]) ::
      assert ss[i].value < ss[i]; SubOrdered(d, ss[i].value)
  }

  lemma {:induction false} OrderedIsSendable(d: Desc, s: State)
    requires StateOk(d, s) && Ordered(d, s)
    ensures Sendable(d, s)
    decreases s
  {
    assert VarsOk(d, s.vars) && SubsOk(d, s.structs) && SubsOrdered(d, s.structs);
    assert Below(s.structs, |d.structs|) by {
      forall i | 0 <= i < |s.structs| && Live(s.structs[i]) ensures s.structs[i].value.index < |d.structs| {
        assert SubOk(d, s.structs[i].value);
      }
    }
    IncreasingCount(s.vars, 0, |d.vars|);
    IncreasingCount(s.structs, 0, |d.structs|);
    forall i | 0 <= i < |s.structs| && Live(s.structs[i])
      ensures SubSendable(d, s.structs[i].value)
    {
      var c := s.structs[i].value;
      assert c < s.structs[i] && SubOk(d, c) && SubOrdered(d, c);
      if !SameAsDefault(c.flags) {
        forall j | 0 <= j < |c.items| ensures Sendable(d.structs[c.index].desc, c.items[j]) {
          OrderedIsSendable(d.structs[c.index].desc, c.items[j]);
        }
      }
    }
  }

  /** The round trip for every index-ordered state of a description within the format's limits. */
  lemma OrderedRoundTrip(d: Desc, s: State, rest: Bytes)
    requires StateOk(d, s) && Ordered(d, s)
    ensures TakeState(d, EncState(d, s) + rest) == Ok(StateSent(s), rest)
  {
    OrderedIsSendable(d, s);
    StateRoundTrip(d, s, rest);
  }
}

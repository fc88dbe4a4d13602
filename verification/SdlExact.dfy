/** Which states are read back as they were sent: exactly those whose counts and slot numbers fit the
    one byte they have, and that are in order where slot numbers are left out. */
module SdlExact {
  import opened Wire
  import opened PlKeys
  import opened SdlModel
  import opened SdlRoundTrip

  lemma {:induction false} VarsSentLength(vs: seq<Option<Var>>)
    ensures |VarsSent(vs)| == Count(vs)
  {
    if vs != [] {
      VarsSentLength(vs[1..]);
    }
  }

  lemma {:induction false} SubsSentLength(ss: seq<Option<Sub>>)
    ensures |SubsSent(ss)| == Count(ss)
  {
    if ss != [] {
      SubsSentLength(ss[1..]);
    }
  }

  lemma {:induction false} TakeVarsLength(d: Desc, n: nat, i: nat, bs: Bytes)
    requires i <= n && TakeVars(d, n, i, bs).Ok?
    ensures |TakeVars(d, n, i, bs).value| == n - i
    decreases n - i
  {
    hide TakeVar;
    if i < n {
      TakeVarsLength(d, n, i + 1, TakeVar(d, n < |d.vars|, i, bs).rest);
    }
  }

  lemma {:induction false} TakeSubsLength(d: Desc, n: nat, i: nat, bs: Bytes)
    requires i <= n && TakeSubs(d, n, i, bs).Ok?
    ensures |TakeSubs(d, n, i, bs).value| == n - i
    decreases n - i
  {
    hide TakeSub;
    if i < n {
      TakeSubsLength(d, n, i + 1, TakeSub(d, n < |d.structs|, i, bs).rest);
    }
  }

  /** The slot number an entry is read with. */
  lemma LeadIndex(isVar: bool, indexed: bool, i: nat, limit: nat, bs: Bytes)
    requires TakeLead(isVar, indexed, i, limit, bs).Ok?
    ensures |bs| > 0 && TakeLead(isVar, indexed, i, limit, bs).value.index == if indexed then bs[0] else i
  {
    hide TakeMarks;
  }

  lemma VarIndex(d: Desc, indexed: bool, i: nat, bs: Bytes)
    requires TakeVar(d, indexed, i, bs).Ok?
    ensures |bs| > 0 && TakeVar(d, indexed, i, bs).value.index == if indexed then bs[0] else i
  {
    hide TakeLead;
    LeadIndex(true, indexed, i, |d.vars|, bs);
  }

  lemma SubIndex(d: Desc, indexed: bool, i: nat, bs: Bytes)
    requires TakeSub(d, indexed, i, bs).Ok?
    ensures |bs| > 0 && TakeSub(d, indexed, i, bs).value.index == if indexed then bs[0] else i
  {
    hide TakeLead;
    LeadIndex(false, indexed, i, |d.structs|, bs);
  }

  /** One turn of the loop. */
  lemma TakeVarsFirst(d: Desc, n: nat, i: nat, bs: Bytes)
    requires i < n && TakeVars(d, n, i, bs).Ok?
    ensures
      var first := TakeVar(d, n < |d.vars|, i, bs);
      && first.Ok? && TakeVars(d, n, i + 1, first.rest).Ok?
      && TakeVars(d, n, i, bs).value == [Some(first.value)] + TakeVars(d, n, i + 1, first.rest).value
  {
    hide TakeVar;
  }

  lemma TakeSubsFirst(d: Desc, n: nat, i: nat, bs: Bytes)
    requires i < n && TakeSubs(d, n, i, bs).Ok?
    ensures
      var first := TakeSub(d, n < |d.structs|, i, bs);
      && first.Ok? && TakeSubs(d, n, i + 1, first.rest).Ok?
      && TakeSubs(d, n, i, bs).value == [Some(first.value)] + TakeSubs(d, n, i + 1, first.rest).value
  {
    hide TakeSub;
  }

  lemma {:induction false} VarsNeed(d: Desc, vs: seq<Option<Var>>, n: nat, i: nat, rest: Bytes)
    requires VarsOk(d, vs) && rest != [] && i + Count(vs) == n
    requires TakeVars(d, n, i, EncVars(d, vs, n < |d.vars|) + rest).Ok?
    requires TakeVars(d, n, i, EncVars(d, vs, n < |d.vars|) + rest).value == VarsSent(vs)
    ensures if n < |d.vars| then FitBytes(vs) else InOrder(vs, i)
    decreases |vs|
  {
    hide EncVar, TakeVar, VarSent, VarOk, TakeVars;
    var indexed := n < |d.vars|;
    if vs != [] && Live(vs[0]) {
      var v := vs[0].value;
      assert VarOk(d, v);
      var tail := EncVars(d, vs[1..], indexed) + rest;
      Assoc(EncVar(d, v, indexed), EncVars(d, vs[1..], indexed), rest);
      var bs := EncVar(d, v, indexed) + tail;
      TakeVarsFirst(d, n, i, bs);
      VarIndex(d, indexed, i, bs);
      VarSentIndex(v);
      assert VarsSent(vs)[0] == Some(VarSent(v)) && VarsSent(vs)[1..] == VarsSent(vs[1..]);
      VarRoundTrip(d, v, indexed, i, tail);
      VarsNeed(d, vs[1..], n, i + 1, rest);
    } else if vs != [] {
      VarsNeed(d, vs[1..], n, i, rest);
    }
  }

  lemma VarSentIndex(v: Var)
    ensures VarSent(v).index == v.index
  {
  }

  lemma SubSentIndex(c: Sub)
    ensures SubSent(c).index == c.index
  {
    hide StatesSent;
  }

  lemma {:induction false} SubsNeed(d: Desc, ss: seq<Option<Sub>>, n: nat, i: nat, rest: Bytes)
    requires SubsOk(d, ss) && i + Count(ss) == n
    requires TakeSubs(d, n, i, EncSubs(d, ss, n < |d.structs|) + rest).Ok?
    requires TakeSubs(d, n, i, EncSubs(d, ss, n < |d.structs|) + rest).value == SubsSent(ss)
    ensures (if n < |d.structs| then FitBytes(ss) else InOrder(ss, i)) && SubsSendable(d, ss)
    decreases ss, 0
  {
    hide EncSub, TakeSub, SubSent, SubOk, TakeSubs, SubSendable;
    var indexed := n < |d.structs|;
    if ss != [] && Live(ss[0]) {
      var c := ss[0].value;
      assert c < ss[0];
      assert SubOk(d, c);
      var tail := EncSubs(d, ss[1..], indexed) + rest;
      Assoc(EncSub(d, c, indexed), EncSubs(d, ss[1..], indexed), rest);
      var bs := EncSub(d, c, indexed) + tail;
      TakeSubsFirst(d, n, i, bs);
      SubIndex(d, indexed, i, bs);
      SubSentIndex(c);
      assert SubsSent(ss)[0] == Some(SubSent(c)) && SubsSent(ss)[1..] == SubsSent(ss[1..]);
      SubNeeds(d, c, indexed, i, tail);
      SubRoundTrip(d, c, indexed, i, tail);
      SubsNeed(d, ss[1..], n, i + 1, rest);
    } else if ss != [] {
      SubsNeed(d, ss[1..], n, i, rest);
    }
  }

  lemma {:induction false} SubNeeds(d: Desc, c: Sub, indexed: bool, i: nat, rest: Bytes)
    requires SubOk(d, c) && if indexed then c.index < 0x100 else c.index == i
    requires TakeSub(d, indexed, i, EncSub(d, c, indexed) + rest).Ok?
    requires TakeSub(d, indexed, i, EncSub(d, c, indexed) + rest).value == SubSent(c)
    ensures SubSendable(d, c)
    decreases c, 0
  {
    hide EncStates, TakeStates, StatesSent, EncLead, TakeLead, EncCount, TakeCount;
    if !SameAsDefault(c.flags) {
      var tail := EncSubData(d, c) + rest;
      Assoc(EncLead(c.index, c.flags, c.stamp, indexed), EncSubData(d, c), rest);
      LeadRoundTrip(false, c.index, c.flags, c.stamp, indexed, i, |d.structs|, tail);
      var sd := d.structs[c.index];
      var kids := EncStates(sd.desc, c.items);
      var lead: Bytes := [c.count % 0x100];
      Assoc(EncCount(sd.count, c.count), lead + kids, rest);
      Assoc(lead, kids, rest);
      CountRoundTrip(sd.count, c.count, lead + (kids + rest));
      assert (lead + (kids + rest))[1..] == kids + rest;
      StatesNeed(sd.desc, c.items, rest);
    }
  }

  lemma {:induction false} StatesNeed(d: Desc, cs: seq<State>, rest: Bytes)
    requires forall j | 0 <= j < |cs| :: StateOk(d, cs[j])
    requires TakeStates(d, |cs|, EncStates(d, cs) + rest).Ok?
    requires TakeStates(d, |cs|, EncStates(d, cs) + rest).value == StatesSent(cs)
    ensures forall j | 0 <= j < |cs| :: Sendable(d, cs[j])
    decreases cs, 0
  {
    hide EncState, TakeState, StateSent, Sendable;
    if cs != [] {
      var more := EncStates(d, cs[1..]) + rest;
      Assoc(EncState(d, cs[0]), EncStates(d, cs[1..]), rest);
      var p := TakeState(d, EncState(d, cs[0]) + more);
      var q := TakeStates(d, |cs| - 1, p.rest);
      assert ([p.value] + q.value)[0] == StatesSent(cs)[0] && ([p.value] + q.value)[1..] == StatesSent(cs)[1..];
      StateNeeds(d, cs[0], more);
      StateRoundTrip(d, cs[0], more);
      StatesNeed(d, cs[1..], rest);
      forall j | 0 <= j < |cs| ensures Sendable(d, cs[j]) {
        assert j > 0 ==> cs[1..][j - 1] == cs[j];
      }
    }
  }

  /** A state that is read back as it was sent satisfies the condition. */
  lemma {:induction false} StateNeeds(d: Desc, s: State, rest: Bytes)
    requires StateOk(d, s) && TakeState(d, EncState(d, s) + rest).Ok?
    requires TakeState(d, EncState(d, s) + rest).value == StateSent(s)
    ensures Sendable(d, s)
    decreases s, 1
  {
    hide EncVars, TakeVars, VarsSent, VarsOk, EncSubs, TakeSubs, SubsSent, SubsOk, SubsSendable, Count;
    hide FitBytes, InOrder;
    var nv, ns := Count(s.vars), Count(s.structs);
    var subs := EncSubs(d, s.structs, ns < |d.structs|);
    var structs: Bytes := EncStructs(d, s.structs);
    var vars := EncVars(d, s.vars, nv < |d.vars|);
    var bs := EncState(d, s) + rest;
    Assoc(EncHead(s), vars + structs, rest);
    Assoc(vars, structs, rest);
    assert bs == EncHead(s) + (vars + (structs + rest));
    assert bs[4..] == vars + (structs + rest) && bs[3] == nv % 0x100;
    TakeVarsLength(d, nv % 0x100, 0, bs[4..]);
    VarsSentLength(s.vars);
    VarsNeed(d, s.vars, nv, 0, structs + rest);
    VarsRoundTrip(d, s.vars, nv, 0, structs + rest);
    Assoc([ns % 0x100], subs, rest);
    assert (structs + rest)[0] == ns % 0x100 && (structs + rest)[1..] == subs + rest;
    TakeSubsLength(d, ns % 0x100, 0, subs + rest);
    SubsSentLength(s.structs);
    SubsNeed(d, s.structs, ns, 0, rest);
  }

  /** For every state that fits its description: reading what was written gives what was sent, and
      leaves the rest, exactly if counts and slot numbers fit, at every level. */
  lemma ReadBackExactly(d: Desc, s: State, rest: Bytes)
    requires StateOk(d, s)
    ensures TakeState(d, EncState(d, s) + rest) == Ok(StateSent(s), rest) <==> Sendable(d, s)
  {
    hide TakeState, EncState, StateSent, Sendable, StateOk;
    if Sendable(d, s) {
      StateRoundTrip(d, s, rest);
    } else if TakeState(d, EncState(d, s) + rest) == Ok(StateSent(s), rest) {
      StateNeeds(d, s, rest);
    }
  }
}

/** What arrives of a state, said in bits and fields: exactly the entries that are not at their default
    (bit 3 of the flags) or carry a time (bit 2), at every level of nesting. */
module SdlArrival {
  import opened Wire
  import opened PlKeys
  import opened SdlModel
  import opened SdlRoundTrip

  predicate Arriving<T>(slot: Option<Entry<T>>) {
    slot.Some? && (!HasBit(slot.value.flags, 8) || HasBit(slot.value.flags, 4))
  }

  /** Index, flags and time; without its bit, no time. */
  predicate SameLead<T>(e: Entry<T>, got: Entry<T>) {
    && got.index == e.index && got.flags == e.flags
    && got.stamp == if HasBit(e.flags, 4) then e.stamp else Stamp(0, 0)
  }

  /** A key keeps the fields its contents announce: bit 1 a mask, bit 0 clone numbers, of 16 and 32 bits. */
  predicate SameItem(e: Elem, got: Elem) {
    if !e.KeyElem? then got == e
    else
      && got.KeyElem?
      && var k, g := e.key, got.key;
      && g.contents == k.contents && g.sequence == k.sequence && g.locFlags == k.locFlags
      && g.classType == k.classType && g.objectId == k.objectId && g.name == k.name
      && g.quality == (if HasBit(k.contents, 2) then k.quality else 0)
      && (if HasBit(k.contents, 1) then g.cloneId == k.cloneId % 0x1_0000 && g.clonePlayer == k.clonePlayer
          else g.cloneId == g.clonePlayer == 0)
  }

  predicate VarArrives(v: Var, got: Var) {
    && SameLead(v, got)
    && if HasBit(v.flags, 8) then got.count == 0 && got.items == []
       else
         && got.count == v.count && |got.items| == |v.items|
         && forall i | 0 <= i < |v.items| :: SameItem(v.items[i], got.items[i])
  }

  predicate VarsArrive(vs: seq<Option<Var>>, got: seq<Option<Var>>) {
    if vs == [] then got == []
    else if Arriving(vs[0]) then
      got != [] && got[0].Some? && VarArrives(vs[0].value, got[0].value) && VarsArrive(vs[1..], got[1..])
    else VarsArrive(vs[1..], got)
  }

  predicate SubArrives(c: Sub, got: Sub)
    decreases c, 0
  {
    && SameLead(c, got)
    && if HasBit(c.flags, 8) then got.count == 0 && got.items == []
       else
         && got.count == c.count && |got.items| == |c.items|
         && forall i | 0 <= i < |c.items| :: StateArrives(c.items[i], got.items[i])
  }

  predicate SubsArrive(ss: seq<Option<Sub>>, got: seq<Option<Sub>>)
    decreases ss, 0
  {
    if ss == [] then got == []
    else if Arriving(ss[0]) then
      assert ss[0].value < ss[0];
      got != [] && got[0].Some? && SubArrives(ss[0].value, got[0].value) && SubsArrive(ss[1..], got[1..])
    else SubsArrive(ss[1..], got)
  }

  predicate StateArrives(s: State, got: State)
    decreases s, 1
  {
    got.flag == s.flag && VarsArrive(s.vars, got.vars) && SubsArrive(s.structs, got.structs)
  }

  // ---------- It is what was specified ----------

  lemma {:induction false} VarsSentArrive(vs: seq<Option<Var>>)
    ensures VarsArrive(vs, VarsSent(vs))
  {
    if vs != [] {
      VarsSentArrive(vs[1..]);
      if Live(vs[0]) {
        assert VarsSent(vs)[1..] == VarsSent(vs[1..]);
        VarSentArrives(vs[0].value);
      }
    }
  }

  lemma VarSentArrives(v: Var)
    ensures VarArrives(v, VarSent(v))
  {
    assert forall i | 0 <= i < |v.items| :: SameItem(v.items[i], ElemsSent(v.items)[i]);
  }

  lemma {:induction false} StatesSentLength(cs: seq<State>)
    ensures |StatesSent(cs)| == |cs| && forall i | 0 <= i < |cs| :: StatesSent(cs)[i] == StateSent(cs[i])
  {
    hide StateSent;
    if cs != [] {
      StatesSentLength(cs[1..]);
    }
  }

  lemma {:induction false} SubSentArrives(c: Sub)
    ensures SubArrives(c, SubSent(c))
    decreases c, 0
  {
    hide StateSent, StateArrives;
    StatesSentLength(c.items);
    forall i | 0 <= i < |c.items| ensures StateArrives(c.items[i], StateSent(c.items[i])) {
      StateSentArrives(c.items[i]);
    }
  }

  lemma {:induction false} SubsSentArrive(ss: seq<Option<Sub>>)
    ensures SubsArrive(ss, SubsSent(ss))
    decreases ss, 0
  {
    hide SubSent, SubArrives;
    if ss != [] {
      SubsSentArrive(ss[1..]);
      if Live(ss[0]) {
        assert ss[0].value < ss[0];
        assert SubsSent(ss)[1..] == SubsSent(ss[1..]);
        SubSentArrives(ss[0].value);
      }
    }
  }

  lemma {:induction false} StateSentArrives(s: State)
    ensures StateArrives(s, StateSent(s))
    decreases s, 1
  {
    hide VarsSent, SubsSent, VarsArrive, SubsArrive;
    VarsSentArrive(s.vars);
    SubsSentArrive(s.structs);
  }

  /** What is read of a state that fits the format, and that nothing behind its bytes is touched. */
  lemma SendableArrives(d: Desc, s: State, rest: Bytes)
    requires StateOk(d, s) && Sendable(d, s)
    ensures
      var p := TakeState(d, EncState(d, s) + rest);
      p.Ok? && p.rest == rest && StateArrives(s, p.value)
  {
    hide StateArrives, TakeState, EncState, StateSent, StateOk, Sendable;
    StateRoundTrip(d, s, rest);
    StateSentArrives(s);
  }

  lemma OrderedArrives(d: Desc, s: State, rest: Bytes)
    requires StateOk(d, s) && Ordered(d, s)
    ensures
      var p := TakeState(d, EncState(d, s) + rest);
      p.Ok? && p.rest == rest && StateArrives(s, p.value)
  {
    hide StateArrives, TakeState, EncState, StateOk, Ordered;
    OrderedIsSendable(d, s);
    SendableArrives(d, s, rest);
  }
}

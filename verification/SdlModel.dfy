/** State descriptions, the state they describe, and the meaning of the binary body format:
    what bytes stand for a state (Enc...) and what state a buffer stands for (Take...). */
module SdlModel {
  import opened Wire
  import opened PlKeys

  datatype VarType =
    | Int | Float | Bool | String32 | Key | Creatable | Time | Octet | Short
    | AgeTimeOfDay | Vector3 | Point3 | Quaternion | Rgb8

  /** How one value of a type is laid out. */
  datatype Shape = Words(n: nat) | Half | Octets(n: nat) | Truth | KeyShape | Unsendable

  function ShapeOf(t: VarType): Shape {
    match t
    case Int => Words(1)
    case Float => Words(1)
    case Bool => Truth
    case String32 => Octets(32)
    case Key => KeyShape
    case Creatable => Unsendable
    case Time => Words(2)
    case Octet => Octets(1)
    case Short => Half
    case AgeTimeOfDay => Words(2)
    case Vector3 => Words(3)
    case Point3 => Words(3)
    case Quaternion => Words(4)
    case Rgb8 => Octets(3)
  }

  /** A value: floats and times are held as the 32-bit words they are sent as. */
  datatype Elem =
    | WordsElem(words: seq<U32>) | HalfElem(half: U16) | OctetsElem(octets: Bytes)
    | TruthElem(truth: bool) | KeyElem(key: PlKey)

  datatype Stamp = Stamp(sec: U32, usec: U32)
  const NoStamp := Stamp(0, 0)

  datatype VarDesc = VarDesc(vtype: VarType, count: nat)
  datatype SubDesc = SubDesc(desc: Desc, count: nat)
  datatype Desc = Desc(name: Bytes, version: U16, vars: seq<VarDesc>, structs: seq<SubDesc>)

  /** What variables and structs of a state have in common (SDLState::StateObj): a slot number,
      content flags, a time, and an array of items. */
  datatype Entry<T> = Entry(index: nat, flags: Byte, stamp: Stamp, count: nat, items: seq<T>)
  type Var = Entry<Elem>
  type Sub = Entry<State>

  /** The vectors of a state may hold null pointers. */
  datatype State = State(flag: U16, vars: seq<Option<Var>>, structs: seq<Option<Sub>>)

  // sdl_contentflags_e
  const HAS_NOTIFICATION_INFO: Byte := 0x02
  const IO_VERSION: Byte := 0x06

  predicate HasNotificationInfo(flags: Byte) { flags / 0x02 % 2 == 1 }
  predicate HasTimeStamp(flags: Byte) { flags / 0x04 % 2 == 1 }
  predicate SameAsDefault(flags: Byte) { flags / 0x08 % 2 == 1 }
  predicate HasDirtyFlag(flags: Byte) { flags / 0x10 % 2 == 1 }

  /** An entry is worth sending when it differs from its default or carries a time. */
  predicate Sent(flags: Byte) { !SameAsDefault(flags) || HasTimeStamp(flags) }

  predicate Live<T>(slot: Option<Entry<T>>) { slot.Some? && Sent(slot.value.flags) }

  /** How many entries will be written. */
  function Count<T>(slots: seq<Option<Entry<T>>>): (n: nat)
    ensures n <= |slots|
  {
    if slots == [] then 0 else (if Live(slots[0]) then 1 else 0) + Count(slots[1..])
  }

  // ---------- Values ----------

  predicate Fits(e: Elem, shape: Shape) {
    match shape
    case Words(n) => e.WordsElem? && |e.words| == n
    case Half => e.HalfElem?
    case Octets(n) => e.OctetsElem? && |e.octets| == n
    case Truth => e.TruthElem?
    case KeyShape => e.KeyElem? && NameOk(e.key.name)
    case Unsendable => false
  }

  function EncWords(ws: seq<U32>): (b: Bytes)
    ensures |b| == 4 * |ws|
  {
    if ws == [] then [] else Le32(ws[0]) + EncWords(ws[1..])
  }

  function EncElem(e: Elem): Bytes
    requires e.KeyElem? ==> NameOk(e.key.name)
  {
    match e
    case WordsElem(ws) => EncWords(ws)
    case HalfElem(h) => Le16(h)
    case OctetsElem(bs) => bs
    case TruthElem(b) => [if b then 1 else 0]
    case KeyElem(k) => EncKey(k)
  }

  predicate AllFit(es: seq<Elem>, shape: Shape) {
    forall i | 0 <= i < |es| :: Fits(es[i], shape)
  }

  function EncElems(es: seq<Elem>, shape: Shape): Bytes
    requires AllFit(es, shape)
  {
    if es == [] then [] else EncElem(es[0]) + EncElems(es[1..], shape)
  }

  /** A key loses the fields its flags do not announce; every other value arrives as it is. */
  function ElemSent(e: Elem): Elem {
    if e.KeyElem? then KeyElem(KeySent(e.key)) else e
  }

  function ElemsSent(es: seq<Elem>): seq<Elem> {
    seq(|es|, i requires 0 <= i < |es| => ElemSent(es[i]))
  }

  function TakeWords(n: nat, bs: Bytes): Parsed<seq<U32>> {
    if n == 0 then Ok([], bs)
    else
      var (w, bs) :- Take32(bs);
      var (ws, bs) :- TakeWords(n - 1, bs);
      Ok([w] + ws, bs)
  }

  function TakeElem(shape: Shape, bs: Bytes): Parsed<Elem> {
    match shape
    case Words(n) => var (ws, bs) :- TakeWords(n, bs); Ok(WordsElem(ws), bs)
    case Half => var (h, bs) :- Take16(bs); Ok(HalfElem(h), bs)
    case Octets(n) => var (os, bs) :- TakeBytes(bs, n); Ok(OctetsElem(os), bs)
    case Truth => var (b, bs) :- Take8(bs); Ok(TruthElem(b != 0), bs)
    case KeyShape => var (k, bs) :- TakeKey(bs); Ok(KeyElem(k), bs)
    case Unsendable => Fail(CreatableSent)
  }

  function TakeElems(shape: Shape, n: nat, bs: Bytes): Parsed<seq<Elem>> {
    if n == 0 then Ok([], bs)
    else
      var (e, bs) :- TakeElem(shape, bs);
      var (es, bs) :- TakeElems(shape, n - 1, bs);
      Ok([e] + es, bs)
  }

  // ---------- The lead-in that variables and structs share ----------

  /** A zero-length notification hint, then the content flags. */
  function EncMarks(flags: Byte, stamp: Stamp): Bytes {
    [HAS_NOTIFICATION_INFO, 0, 0, 0xF0] + ([flags] + EncStamp(flags, stamp))
  }

  function EncLead(index: nat, flags: Byte, stamp: Stamp, indexed: bool): Bytes {
    (if indexed then [index % 0x100] else []) + EncMarks(flags, stamp)
  }

  function EncStamp(flags: Byte, stamp: Stamp): Bytes {
    if HasTimeStamp(flags) then Le32(stamp.sec) + Le32(stamp.usec) else []
  }

  function TakeIndex(indexed: bool, i: nat, limit: nat, bs: Bytes): Parsed<nat> {
    if |bs| < 1 then Fail(Truncated)
    else
      var (index, bs) := if indexed then (bs[0], bs[1..]) else (i, bs);
      if index >= limit then Fail(BadIndex(index)) else Ok(index, bs)
  }

  /** Skip a hint: some flags and a string nobody keeps. */
  function TakeHint(present: bool, bs: Bytes): Parsed<()> {
    if !present then Ok((), bs)
    else if |bs| < 3 then Fail(Truncated)
    else Ok((), TakeName(bs[1..]).rest)
  }

  function TakeStamp(flags: Byte, bs: Bytes): Parsed<Stamp> {
    if !HasTimeStamp(flags) then Ok(NoStamp, bs)
    else if |bs| < 8 then Fail(Truncated)
    else Ok(Stamp(Read32(bs, 0), Read32(bs, 4)), bs[8..])
  }

  datatype Lead = Lead(index: nat, flags: Byte, stamp: Stamp)

  /** Hint, flags and time.  Variables test one bit of the first byte for a hint, structs
      compare the whole byte. */
  function TakeMarks(isVar: bool, index: nat, bs: Bytes): (p: Parsed<Lead>)
    ensures p.Ok? ==> p.value.index == index
  {
    var (notify, bs) :- Take8(bs);
    var (_, bs) :- TakeHint(if isVar then HasNotificationInfo(notify) else notify == HAS_NOTIFICATION_INFO, bs);
    var (flags, bs) :- Take8(bs);
    var (stamp, bs) :- TakeStamp(flags, bs);
    Ok(Lead(index, flags, stamp), bs)
  }

  function TakeLead(isVar: bool, indexed: bool, i: nat, limit: nat, bs: Bytes): (p: Parsed<Lead>)
    ensures p.Ok? ==> p.value.index < limit
  {
    var (index, bs) :- TakeIndex(indexed, i, limit, bs);
    TakeMarks(isVar, index, bs)
  }

  /** A count is on the wire only where the description leaves it open. */
  function EncCount(fixed: nat, count: nat): Bytes {
    if fixed == 0 then Le32(count % 0x1_0000_0000) else []
  }

  function TakeCount(fixed: nat, bs: Bytes): Parsed<nat> {
    if fixed != 0 then Ok(fixed, bs) else Take32(bs)
  }

  predicate CountOk(fixed: nat, count: nat) {
    if fixed == 0 then count < 0x1_0000_0000 else count == fixed
  }

  // ---------- Variables ----------

  predicate VarOk(d: Desc, v: Var) {
    && v.index < |d.vars|
    && (!SameAsDefault(v.flags) ==>
        var dv := d.vars[v.index];
        !dv.vtype.Creatable? && |v.items| == v.count && CountOk(dv.count, v.count)
            && AllFit(v.items, ShapeOf(dv.vtype)))
  }

  predicate VarsOk(d: Desc, vs: seq<Option<Var>>) {
    forall i | 0 <= i < |vs| && Live(vs[i]) :: VarOk(d, vs[i].value)
  }

  function EncVarData(d: Desc, v: Var): Bytes
    requires VarOk(d, v)
  {
    if SameAsDefault(v.flags) then []
    else EncCount(d.vars[v.index].count, v.count) + EncElems(v.items, ShapeOf(d.vars[v.index].vtype))
  }

  function EncVar(d: Desc, v: Var, indexed: bool): Bytes
    requires VarOk(d, v)
  {
    EncLead(v.index, v.flags, v.stamp, indexed) + EncVarData(d, v)
  }

  function EncVars(d: Desc, vs: seq<Option<Var>>, indexed: bool): Bytes
    requires VarsOk(d, vs)
  {
    if vs == [] then []
    else if Live(vs[0]) then
      EncVar(d, vs[0].value, indexed) + EncVars(d, vs[1..], indexed)
    else EncVars(d, vs[1..], indexed)
  }

  function StampSent(flags: Byte, stamp: Stamp): Stamp {
    if HasTimeStamp(flags) then stamp else NoStamp
  }

  function VarSent(v: Var): Var {
    if SameAsDefault(v.flags) then Entry(v.index, v.flags, StampSent(v.flags, v.stamp), 0, [])
    else Entry(v.index, v.flags, StampSent(v.flags, v.stamp), v.count, ElemsSent(v.items))
  }

  /** Exactly the entries that are worth sending, in order, as they arrive. */
  function VarsSent(vs: seq<Option<Var>>): seq<Option<Var>> {
    if vs == [] then []
    else if Live(vs[0]) then [Some(VarSent(vs[0].value))] + VarsSent(vs[1..])
    else VarsSent(vs[1..])
  }

  function TakeVarData(dv: VarDesc, lead: Lead, bs: Bytes): Parsed<Var> {
    if SameAsDefault(lead.flags) then Ok(Entry(lead.index, lead.flags, lead.stamp, 0, []), bs)
    else
      var (count, bs) :- TakeCount(dv.count, bs);
      if dv.vtype.Creatable? then Fail(CreatableSent)
      else
        var (values, bs) :- TakeElems(ShapeOf(dv.vtype), count, bs);
        Ok(Entry(lead.index, lead.flags, lead.stamp, count, values), bs)
  }

  /** The body of the variable loop of recursive_parse, for the i-th entry sent. */
  function TakeVar(d: Desc, indexed: bool, i: nat, bs: Bytes): Parsed<Var> {
    var (lead, bs) :- TakeLead(true, indexed, i, |d.vars|, bs);
    TakeVarData(d.vars[lead.index], lead, bs)
  }

  function TakeVars(d: Desc, n: nat, i: nat, bs: Bytes): Parsed<seq<Option<Var>>>
    requires i <= n
    decreases n - i
  {
    if i == n then Ok([], bs)
    else
      var (v, bs) :- TakeVar(d, n < |d.vars|, i, bs);
      var (vs, bs) :- TakeVars(d, n, i + 1, bs);
      Ok([Some(v)] + vs, bs)
  }

  // ---------- Structs and whole states ----------

  predicate SubOk(d: Desc, c: Sub)
    decreases c, 0
  {
    && c.index < |d.structs|
    && (!SameAsDefault(c.flags) ==>
        var sd := d.structs[c.index];
        && |c.items| == c.count && CountOk(sd.count, c.count)
        && forall j | 0 <= j < |c.items| :: StateOk(sd.desc, c.items[j]))
  }

  predicate SubsOk(d: Desc, ss: seq<Option<Sub>>)
    decreases ss, 0
  {
    forall i | 0 <= i < |ss| && Live(ss[i]) ::
      assert ss[i].value < ss[i]; SubOk(d, ss[i].value)
  }

  /** A state that fits its description: known slots, declared counts, values of the declared types. */
  predicate StateOk(d: Desc, s: State)
    decreases s, 1
  {
    VarsOk(d, s.vars) && SubsOk(d, s.structs)
  }

  function EncStates(d: Desc, cs: seq<State>): Bytes
    requires forall j | 0 <= j < |cs| :: StateOk(d, cs[j])
    decreases cs, 0
  {
    if cs == [] then [] else EncState(d, cs[0]) + EncStates(d, cs[1..])
  }

  function EncSubData(d: Desc, c: Sub): Bytes
    requires SubOk(d, c)
    decreases c, 0
  {
    if SameAsDefault(c.flags) then []
    else
      var sd := d.structs[c.index];
      EncCount(sd.count, c.count) + ([c.count % 0x100] + EncStates(sd.desc, c.items))
  }

  function EncSub(d: Desc, c: Sub, indexed: bool): Bytes
    requires SubOk(d, c)
    decreases c, 1
  {
    EncLead(c.index, c.flags, c.stamp, indexed) + EncSubData(d, c)
  }

  function EncSubs(d: Desc, ss: seq<Option<Sub>>, indexed: bool): Bytes
    requires SubsOk(d, ss)
    decreases ss, 0
  {
    if ss == [] then []
    else if Live(ss[0]) then
      assert ss[0].value < ss[0];
      EncSub(d, ss[0].value, indexed) + EncSubs(d, ss[1..], indexed)
    else EncSubs(d, ss[1..], indexed)
  }

  /** The bytes of a state: recursive_write. */
  function EncState(d: Desc, s: State): Bytes
    requires StateOk(d, s)
    decreases s, 1
  {
    EncHead(s) + (EncVars(d, s.vars, Count(s.vars) < |d.vars|) + EncStructs(d, s.structs))
  }

  function EncHead(s: State): Bytes {
    Le16(s.flag) + [IO_VERSION, Count(s.vars) % 0x100]
  }

  function EncStructs(d: Desc, ss: seq<Option<Sub>>): Bytes
    requires SubsOk(d, ss)
    decreases ss, 1
  {
    [Count(ss) % 0x100] + EncSubs(d, ss, Count(ss) < |d.structs|)
  }

  function StatesSent(cs: seq<State>): (r: seq<State>)
    decreases cs, 0
  {
    if cs == [] then [] else [StateSent(cs[0])] + StatesSent(cs[1..])
  }

  function SubSent(c: Sub): Sub
    decreases c, 0
  {
    if SameAsDefault(c.flags) then Entry(c.index, c.flags, StampSent(c.flags, c.stamp), 0, [])
    else Entry(c.index, c.flags, StampSent(c.flags, c.stamp), c.count, StatesSent(c.items))
  }

  function SubsSent(ss: seq<Option<Sub>>): seq<Option<Sub>>
    decreases ss, 0
  {
    if ss == [] then []
    else if Live(ss[0]) then
      assert ss[0].value < ss[0];
      [Some(SubSent(ss[0].value))] + SubsSent(ss[1..])
    else SubsSent(ss[1..])
  }

  /** What of a state arrives: the entries worth sending, without what their flags suppress. */
  function StateSent(s: State): State
    decreases s, 1
  {
    State(s.flag, VarsSent(s.vars), SubsSent(s.structs))
  }

  function TakeStates(d: Desc, n: nat, bs: Bytes): Parsed<seq<State>>
    decreases d, 3, n
  {
    if n == 0 then Ok([], bs)
    else
      var (c, bs) :- TakeState(d, bs);
      var (cs, bs) :- TakeStates(d, n - 1, bs);
      Ok([c] + cs, bs)
  }

  function TakeSubData(sd: SubDesc, lead: Lead, bs: Bytes): Parsed<Sub>
    decreases sd, 0, 0
  {
    if SameAsDefault(lead.flags) then Ok(Entry(lead.index, lead.flags, lead.stamp, 0, []), bs)
    else
      var (count, bs) :- TakeCount(sd.count, bs);
      var (_, bs) :- Take8(bs);
      var (children, bs) :- TakeStates(sd.desc, count, bs);
      Ok(Entry(lead.index, lead.flags, lead.stamp, count, children), bs)
  }

  /** The body of the struct loop of recursive_parse. */
  function TakeSub(d: Desc, indexed: bool, i: nat, bs: Bytes): Parsed<Sub>
    decreases d, 0, 0
  {
    var (lead, bs) :- TakeLead(false, indexed, i, |d.structs|, bs);
    TakeSubData(d.structs[lead.index], lead, bs)
  }

  function TakeSubs(d: Desc, n: nat, i: nat, bs: Bytes): Parsed<seq<Option<Sub>>>
    requires i <= n
    decreases d, 1, n - i
  {
    if i == n then Ok([], bs)
    else
      var (c, bs) :- TakeSub(d, n < |d.structs|, i, bs);
      var (cs, bs) :- TakeSubs(d, n, i + 1, bs);
      Ok([Some(c)] + cs, bs)
  }

  /** The state a buffer stands for: recursive_parse. */
  function TakeState(d: Desc, bs: Bytes): Parsed<State>
    decreases d, 2, 0
  {
    if |bs| < 4 then Fail(Truncated)
    else
      var flag := Read16(bs, 0);
      var (vars, bs) :- TakeVars(d, bs[3], 0, bs[4..]);
      var (n, bs) :- Take8(bs);
      var (structs, bs) :- TakeSubs(d, n, 0, bs);
      Ok(State(flag, vars, structs), bs)
  }
}

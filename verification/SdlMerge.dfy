/** update_from: a master state takes over what is new in a received state, entry by entry and
    in place in both. */
module SdlMerge {
  import opened Wire
  import opened SdlModel
  import opened SdlExpand

  /** Where an update comes from: the vault, and then a global or a player's vault, or a client
      (vault is false); or the saved state is merged into vault state when an age is loaded. */
  datatype Mode = Mode(vault: bool, global: bool, ageLoad: bool, now: Stamp)

  /** timeval_lessthan */
  predicate Earlier(a: Stamp, b: Stamp) { a.sec < b.sec || (a.sec == b.sec && a.usec < b.usec) }

  function WithTimeStamp(flags: Byte): (f: Byte)
    ensures HasTimeStamp(f) && SameAsDefault(f) == SameAsDefault(flags) && HasDirtyFlag(f) == HasDirtyFlag(flags)
  {
    // the bit is clear, so adding it does not carry
    assert flags % 8 < 4 ==> (flags + 4) / 8 == flags / 8;
    if HasTimeStamp(flags) then flags else flags + 0x04
  }

  function WithoutTimeStamp(flags: Byte): Byte {
    if HasTimeStamp(flags) then flags - 0x04 else flags
  }

  function Stamped(v: Var, now: Stamp): Var { v.(flags := WithTimeStamp(v.flags), stamp := now) }

  /** Variable::operator==: everything but the time. */
  predicate SameValue(a: Var, b: Var) {
    && a.index == b.index && WithoutTimeStamp(a.flags) == WithoutTimeStamp(b.flags)
    && a.count == b.count && a.items == b.items
  }

  /** A vault entry that is older than the master's, or a player's that says nothing new. */
  predicate Superseded(to: Var, from: Var, mode: Mode) {
    if mode.global then
      HasTimeStamp(to.flags) && (!HasTimeStamp(from.flags) || Earlier(from.stamp, to.stamp))
    else SameValue(to, from)
  }

  /** The copy the master keeps always has a time; on age load an existing one is not touched. */
  function Adopted(from: Var, mode: Mode): Var {
    if !mode.ageLoad || !HasTimeStamp(from.flags) then Stamped(from, mode.now) else from
  }

  /** One turn of the variable loop: the master's slot afterwards, and what stays in newer. */
  function MergeOne(to: Option<Var>, from: Var, mode: Mode): (Option<Var>, Option<Var>) {
    if !HasDirtyFlag(from.flags) then (to, if mode.vault then None else Some(from))
    else if to.Some? && mode.vault && Superseded(to.value, from, mode) then (to, None)
    else if to.Some? && mode.ageLoad && !HasTimeStamp(from.flags) then
      (if !SameAsDefault(to.value.flags) && !HasTimeStamp(to.value.flags) then Some(Stamped(to.value, mode.now))
          else to,
       Some(from))
    else if to.Some? && mode.ageLoad && HasTimeStamp(to.value.flags) && Earlier(from.stamp, to.value.stamp) then
      (to, Some(from))
    else if !mode.vault then (Some(Adopted(from, mode)), None)
    // the vault's copy for an empty slot is made but not put into the slot
    else (if to.Some? then Some(Adopted(from, mode)) else None, Some(from))
  }

  predicate InRange(froms: seq<Var>, n: nat) { forall i | 0 <= i < |froms| :: froms[i].index < n }

  /** The whole loop. */
  function MergeAll(m: seq<Option<Var>>, froms: seq<Var>, mode: Mode): (r: (seq<Option<Var>>, seq<Option<Var>>))
    requires InRange(froms, |m|)
    ensures |r.0| == |m| && |r.1| == |froms|
    decreases froms
  {
    if froms == [] then (m, [])
    else
      var (to, left) := MergeOne(m[froms[0].index], froms[0], mode);
      var (m', lefts) := MergeAll(m[froms[0].index := to], froms[1..], mode);
      (m', [left] + lefts)
  }

  function Values<T>(slots: seq<Option<T>>): seq<T>
    requires forall i | 0 <= i < |slots| :: slots[i].Some?
  {
    seq(|slots|, i requires 0 <= i < |slots| => slots[i].value)
  }

  /** The variables once there are as many as declared. */
  ghost function BaseVars(vars: seq<Option<Var>>, n: nat): (r: seq<Option<Var>>)
    ensures |r| >= n && |r| >= |vars|
    ensures IndicesBelow(vars, n) ==> IndicesBelow(r, n)
  {
    if |vars| >= n then vars
    else
      assert IndicesBelow(vars, n) ==> IndicesBelow(VarsExpanded(vars, n), n) by {
        if IndicesBelow(vars, n) {
          ExpandedBelow(vars, n);
        }
      }
      VarsExpanded(vars, n)
  }

  lemma {:induction false} DescendBelow(m: seq<Option<Var>>, cur: int, fill: int)
    requires -1 <= cur < |m| && -1 <= fill < |m| && IndicesBelow(m, |m|)
    ensures IndicesBelow(Descend(m, cur, fill).0, |m|)
    decreases fill + 1
  {
    if fill >= 0 {
      var c := SkipNulls(m, cur);
      if c >= 0 && m[c].value.index == fill {
        DescendBelow(Filled(Moved(m, c, fill), fill), c - 1, fill - 1);
      } else {
        DescendBelow(Filled(m, fill), c, fill - 1);
      }
    }
  }

  lemma {:induction false} CleanupBelow(m: seq<Option<Var>>, cur: int)
    requires -1 <= cur < |m| && IndicesBelow(m, |m|)
    ensures IndicesBelow(Cleanup(m, cur), |m|)
    decreases cur + 1
  {
    if cur >= 0 {
      CleanupBelow(PutHome(m, cur), cur - 1);
    }
  }

  lemma ExpandedBelow(slots: seq<Option<Var>>, n: nat)
    requires |slots| < n && IndicesBelow(slots, n)
    ensures IndicesBelow(VarsExpanded(slots, n), n)
  {
    hide Descend, Cleanup;
    DescendBelow(Spread(slots, n), |slots| - 1, n - 1);
    var (m, cur) := Descend(Spread(slots, n), |slots| - 1, n - 1);
    CleanupBelow(m, cur);
  }

  lemma DescentsBelow(slots: seq<Option<Sub>>, n: nat, m: seq<Option<Sub>>)
    requires Descents(slots, n, m) && IndicesBelow(slots, n)
    ensures Complete(m, n)
  {
    forall i: nat | i < n ensures m[i].Some? && m[i].value.index < n {
      assert SlotIs(slots, n, i, m[i]);
    }
  }

  lemma {:induction false} MergeBelow(m: seq<Option<Var>>, froms: seq<Var>, mode: Mode, n: nat)
    requires InRange(froms, |m|) && IndicesBelow(m, n) && InRange(froms, n)
    ensures IndicesBelow(MergeAll(m, froms, mode).0, n)
    decreases froms
  {
    if froms != [] {
      MergeBelow(m[froms[0].index := MergeOne(m[froms[0].index], froms[0], mode).0], froms[1..], mode, n);
    }
  }

  lemma {:induction false} PutBelow(ss: seq<Option<Sub>>, froms: seq<Sub>, n: nat)
    requires forall i | 0 <= i < |froms| :: froms[i].index < |ss| && froms[i].index < n
    requires IndicesBelow(ss, n)
    ensures IndicesBelow(PutAll(ss, froms), n)
    decreases froms
  {
    if froms != [] {
      PutBelow(ss[froms[0].index := Some(froms[0])], froms[1..], n);
    }
  }

  // ---------- The arrays behind the values ----------

  /** The size of the array a variable is read with; a default has none. */
  function RoomOf(slot: Option<Var>): Option<nat> {
    if slot.Some? && !SameAsDefault(slot.value.flags) then Some(slot.value.count) else None
  }

  function Rooms(slots: seq<Option<Var>>): (r: seq<Option<nat>>)
    ensures |r| == |slots|
  {
    seq(|slots|, i requires 0 <= i < |slots| => RoomOf(slots[i]))
  }

  /** Variable::operator=: the array afterwards, and whether the copy stays inside it.  An array is
      only given up by a variable that is not at its default. */
  function Assigned(to: Var, room: Option<nat>, from: Var): (Option<nat>, bool) {
    var given := (!SameAsDefault(from.flags) || to.count < from.count) && !SameAsDefault(to.flags);
    var kept := if given then None else room;
    var after := if !SameAsDefault(from.flags) && kept.None? then Some(from.count) else kept;
    (after, SameAsDefault(from.flags) || from.count <= after.value)
  }

  /** Exactly when a copy stays inside. */
  lemma CopyInside(to: Var, room: Option<nat>, from: Var)
    ensures Assigned(to, room, from).1 <==>
            SameAsDefault(from.flags) || !SameAsDefault(to.flags) || room.None? || from.count <= room.value
  {
  }

  /** The master takes the received variable itself. */
  predicate Swipes(to: Option<Var>, from: Var, mode: Mode) {
    !mode.vault && HasDirtyFlag(from.flags) && MergeOne(to, from, mode).1.None?
  }

  /** The master's variable is assigned the received one. */
  predicate Copies(to: Option<Var>, from: Var, mode: Mode) {
    mode.vault && to.Some? && HasDirtyFlag(from.flags) && MergeOne(to, from, mode).1.Some?
    && !(mode.ageLoad && (!HasTimeStamp(from.flags)
                          || (HasTimeStamp(to.value.flags) && Earlier(from.stamp, to.value.stamp))))
  }

  function MergeRoom(to: Option<Var>, room: Option<nat>, from: Var, mode: Mode): (Option<nat>, bool) {
    if Swipes(to, from, mode) then (RoomOf(Some(from)), true)
    else if Copies(to, from, mode) then Assigned(to.value, room, from)
    else (room, true)
  }

  /** The arrays after the loop, and whether every copy stayed inside. */
  function MergeRooms(m: seq<Option<Var>>, rooms: seq<Option<nat>>, froms: seq<Var>, mode: Mode)
    : (r: (seq<Option<nat>>, bool))
    requires InRange(froms, |m|) && |rooms| == |m|
    ensures |r.0| == |m|
    decreases froms
  {
    if froms == [] then (rooms, true)
    else
      var i := froms[0].index;
      var (room, inside) := MergeRoom(m[i], rooms[i], froms[0], mode);
      var (rooms', rest) := MergeRooms(m[i := MergeOne(m[i], froms[0], mode).0], rooms[i := room], froms[1..], mode);
      (rooms', inside && rest)
  }

  lemma MergeSteps(m: seq<Option<Var>>, rooms: seq<Option<nat>>, froms: seq<Var>, i: nat, mode: Mode)
    requires InRange(froms, |m|) && |rooms| == |m| && i < |froms|
    ensures
      var k := froms[i].index;
      var (to, left) := MergeOne(m[k], froms[i], mode);
      var (room, inside) := MergeRoom(m[k], rooms[k], froms[i], mode);
      var m', rooms', rest := m[k := to], rooms[k := room], froms[i + 1..];
      && MergeAll(m, froms[i..], mode) == (MergeAll(m', rest, mode).0, [left] + MergeAll(m', rest, mode).1)
      && MergeRooms(m, rooms, froms[i..], mode)
         == (MergeRooms(m', rooms', rest, mode).0, inside && MergeRooms(m', rooms', rest, mode).1)
  {
    hide MergeOne, MergeRoom;
    assert froms[i..][0] == froms[i] && froms[i..][1..] == froms[i + 1..];
  }

  lemma MergeNone(m: seq<Option<Var>>, rooms: seq<Option<nat>>, mode: Mode)
    requires |rooms| == |m|
    ensures MergeAll(m, [], mode) == (m, []) && MergeRooms(m, rooms, [], mode) == (rooms, true)
  {
  }

  /** The first i entries have been merged. */
  ghost predicate Halfway(
    base: seq<Option<Var>>, start: seq<Option<nat>>, froms: seq<Var>, mode: Mode, i: nat,
    m: seq<Option<Var>>, rooms: seq<Option<nat>>, done: seq<Option<Var>>, fine: bool)
  {
    && i <= |froms| && InRange(froms, |base|) && |start| == |base| == |m| == |rooms|
    && MergeAll(base, froms, mode) == (MergeAll(m, froms[i..], mode).0, done + MergeAll(m, froms[i..], mode).1)
    && MergeRooms(base, start, froms, mode)
       == (MergeRooms(m, rooms, froms[i..], mode).0, fine && MergeRooms(m, rooms, froms[i..], mode).1)
  }

  lemma HalfwayStarts(base: seq<Option<Var>>, start: seq<Option<nat>>, froms: seq<Var>, mode: Mode)
    requires InRange(froms, |base|) && |start| == |base|
    ensures Halfway(base, start, froms, mode, 0, base, start, [], true)
  {
    assert froms[0..] == froms;
    var all := MergeAll(base, froms, mode);
    assert [] + all.1 == all.1;
  }

  lemma HalfwayNext(
    base: seq<Option<Var>>, start: seq<Option<nat>>, froms: seq<Var>, mode: Mode, i: nat,
    m: seq<Option<Var>>, rooms: seq<Option<nat>>, done: seq<Option<Var>>, fine: bool)
    requires Halfway(base, start, froms, mode, i, m, rooms, done, fine) && i < |froms|
    ensures
      var k := froms[i].index;
      var (to, left) := MergeOne(m[k], froms[i], mode);
      var (room, inside) := MergeRoom(m[k], rooms[k], froms[i], mode);
      Halfway(base, start, froms, mode, i + 1, m[k := to], rooms[k := room], done + [left], fine && inside)
  {
    hide MergeOne, MergeRoom, MergeAll, MergeRooms;
    var k := froms[i].index;
    MergeSteps(m, rooms, froms, i, mode);
    var (to, left) := MergeOne(m[k], froms[i], mode);
    Onwards(done, left, left, MergeAll(m[k := to], froms[i + 1..], mode).1);
  }

  lemma HalfwayEnds(
    base: seq<Option<Var>>, start: seq<Option<nat>>, froms: seq<Var>, mode: Mode,
    m: seq<Option<Var>>, rooms: seq<Option<nat>>, done: seq<Option<Var>>, i: nat, outside: bool)
    requires Halfway(base, start, froms, mode, i, m, rooms, done, !outside) && i == |froms|
    ensures MergeAll(base, froms, mode) == (m, done) && MergeRooms(base, start, froms, mode) == (rooms, !outside)
  {
    hide MergeAll, MergeRooms;
    var none: seq<Var> := [];
    assert froms[|froms|..] == none && done + [] == done;
    MergeNone(m, rooms, mode);
  }

  lemma Onwards<T>(done: seq<T>, x: T, y: T, rest: seq<T>)
    ensures (done + ([y] + rest))[|done|] == y && (done + ([y] + rest))[|done| := x] == done + [x] + rest
    ensures done + ([x] + rest) == done + [x] + rest
  {
  }

  /** How many entries there are before a null one. */
  function UpToNull<T>(slots: seq<Option<T>>): (n: nat)
    ensures n <= |slots| && (forall i | 0 <= i < n :: slots[i].Some?) && (n < |slots| ==> slots[n].None?)
  {
    if slots == [] || slots[0].None? then 0 else 1 + UpToNull(slots[1..])
  }

  /** A variable's copy ended outside its array, or a null entry was taken for a variable. */
  datatype Outcome = Fine | Outside | NullMet

  lemma ValuesOf<T>(slots: seq<Option<T>>)
    requires forall i | 0 <= i < |slots| :: slots[i].Some?
    ensures |Values(slots)| == |slots| && forall i | 0 <= i < |slots| :: slots[i] == Some(Values(slots)[i])
  {
  }

  class SdlState {
    const desc: Desc
    var vars: seq<Option<Var>>
    var rooms: seq<Option<nat>>
    var structs: seq<Option<Sub>>

    constructor (desc: Desc, vars: seq<Option<Var>>, structs: seq<Option<Sub>>)
      requires IndicesBelow(vars, |desc.vars|) && IndicesBelow(structs, |desc.structs|)
      ensures this.desc == desc && this.vars == vars && this.structs == structs && Valid() && rooms == Rooms(vars)
    {
      this.desc, this.vars, this.rooms, this.structs := desc, vars, Rooms(vars), structs;
    }

    /** A state that still has to be expanded is as it was read. */
    ghost predicate Valid()
      reads this
    {
      && IndicesBelow(vars, |desc.vars|) && IndicesBelow(structs, |desc.structs|) && |rooms| == |vars|
      && (|vars| < |desc.vars| ==> rooms == Rooms(vars))
    }

    method Expand()
      requires Valid()
      modifies this
      ensures Valid() && vars == BaseVars(old(vars), |desc.vars|)
      ensures rooms == if |old(vars)| < |desc.vars| then Rooms(vars) else old(rooms)
      ensures
        |old(vars)| < |desc.vars| ==>
          && (Normal(old(vars), vars, |desc.vars|) <==> Aligned(old(vars)))
          && ((forall i | 0 <= i < |vars| :: vars[i].Some?) <==> Aligned(old(vars)))
      ensures if |old(structs)| < |desc.structs| then Descents(old(structs), |desc.structs|, structs)
              else structs == old(structs)
    {
      if |vars| < |desc.vars| {
        ExpandedBelow(vars, |desc.vars|);
        vars := ExpandVars(vars, |desc.vars|);
        rooms := Rooms(vars);
      }
      if |structs| < |desc.structs| {
        var more := ExpandStructs(structs, |desc.structs|);
        DescentsBelow(structs, |desc.structs|, more);
        structs := more;
      }
    }

    /** The ghost result is the master's structs after a needed expansion.  When a null entry is met,
        what came before it has been merged. */
    method UpdateFrom(newer: SdlState, mode: Mode) returns (outcome: Outcome, ghost base: seq<Option<Sub>>)
      requires Valid() && newer.Valid() && newer.desc == desc && Complete(newer.structs, |desc.structs|)
      requires mode.vault ==> newer.structs == []
      modifies this, newer
      ensures Valid()
      ensures this == newer ==> vars == old(vars) && structs == old(structs) && outcome == Fine
      ensures this != newer ==>
                && var n := UpToNull(old(newer.vars));
                   var m, froms := BaseVars(old(vars), |desc.vars|), Values(old(newer.vars)[..n]);
                   var was := if |old(vars)| < |desc.vars| then Rooms(m) else old(rooms);
                && (vars, newer.vars) == (MergeAll(m, froms, mode).0, MergeAll(m, froms, mode).1 + old(newer.vars)[n..])
                && rooms == MergeRooms(m, was, froms, mode).0
                && outcome == if !MergeRooms(m, was, froms, mode).1 then Outside
                              else if n < |old(newer.vars)| then NullMet else Fine
      ensures this != newer ==>
                && (if |old(structs)| < |desc.structs| then Descents(old(structs), |desc.structs|, base)
                    else base == old(structs))
      ensures this != newer && outcome == Fine ==>
                && structs == PutAll(base, Values(old(newer.structs)))
                && forall i | 0 <= i < |newer.structs| :: newer.structs[i].None?
    {
      outcome := Fine;
      if this == newer {
        return Fine, [];
      }
      if |vars| < |desc.vars| || |structs| < |desc.structs| {
        Expand();
      }
      base := structs;
      ghost var m, froms := vars, Values(newer.vars[..UpToNull(newer.vars)]);
      MergeBelow(m, froms, mode, |desc.vars|);
      outcome := MergeVars(newer, mode);
      if outcome.Fine? {
        PutBelow(structs, Values(newer.structs), |desc.structs|);
        MergeStructs(newer);
      }
    }

    /** Nothing is known of a state after a copy outside its array; the loop is followed to its end. */
    method MergeVars(newer: SdlState, mode: Mode) returns (outcome: Outcome)
      requires this != newer && IndicesBelow(newer.vars, |vars|) && |rooms| == |vars|
      modifies this`vars, this`rooms, newer`vars
      ensures
        var n := UpToNull(old(newer.vars));
        var froms := Values(old(newer.vars)[..n]);
        && (vars, newer.vars) == (MergeAll(old(vars), froms, mode).0,
                                  MergeAll(old(vars), froms, mode).1 + old(newer.vars)[n..])
        && rooms == MergeRooms(old(vars), old(rooms), froms, mode).0
        && outcome == if !MergeRooms(old(vars), old(rooms), froms, mode).1 then Outside
                      else if n < |old(newer.vars)| then NullMet else Fine
    {
      hide MergeOne, MergeRoom, MergeAll, MergeRooms, UpToNull, Values, Halfway;
      ghost var n := UpToNull(newer.vars);
      ghost var base, start, all, done := vars, rooms, newer.vars, [];
      ghost var froms := Values(all[..n]);
      ValuesOf(all[..n]);
      HalfwayStarts(base, start, froms, mode);
      outcome := Fine;
      for i := 0 to |newer.vars|
        invariant i <= n && |newer.vars| == |all| && |vars| == |base| == |rooms| && |done| == i
        invariant newer.vars == done + all[i..] && outcome != NullMet
        invariant Halfway(base, start, froms, mode, i, vars, rooms, done, outcome.Fine?)
      {
        Onwards(done, all[i], all[i], all[i + 1..]);
        assert all[i..] == [all[i]] + all[i + 1..];
        if newer.vars[i].None? {
          if outcome.Fine? {
            outcome := NullMet;
          }
          break;
        }
        assert all[i] == Some(froms[i]);
        HalfwayNext(base, start, froms, mode, i, vars, rooms, done, outcome.Fine?);
        ghost var left := MergeOne(vars[froms[i].index], froms[i], mode).1;
        Onwards(done, left, all[i], all[i + 1..]);
        done := done + [left];
        var inside := MergeEntry(newer, i, mode);
        if !inside {
          outcome := Outside;
        }
      }
      HalfwayEnds(base, start, froms, mode, vars, rooms, done, |done|, outcome.Outside?);
    }

    /** One turn of the variable loop. */
    method MergeEntry(newer: SdlState, i: nat, mode: Mode) returns (inside: bool)
      requires this != newer && i < |newer.vars| && newer.vars[i].Some? && |rooms| == |vars|
      requires newer.vars[i].value.index < |vars|
      modifies this`vars, this`rooms, newer`vars
      ensures
        var from := old(newer.vars[i].value);
        var k := from.index;
        && vars == old(vars)[k := MergeOne(old(vars)[k], from, mode).0]
        && rooms == old(rooms)[k := MergeRoom(old(vars)[k], old(rooms)[k], from, mode).0]
        && newer.vars == old(newer.vars)[i := MergeOne(old(vars)[k], from, mode).1]
        && inside == MergeRoom(old(vars)[k], old(rooms)[k], from, mode).1
    {
      hide MergeOne, MergeRoom;
      var from := newer.vars[i].value;
      var (to, left) := MergeOne(vars[from.index], from, mode);
      var (room, ok) := MergeRoom(vars[from.index], rooms[from.index], from, mode);
      inside := ok;
      vars, rooms := vars[from.index := to], rooms[from.index := room];
      newer.vars := newer.vars[i := left];
    }

    /** What the vault says, expanded before it is merged: a null entry is met exactly if there were too
        few entries, and not in order. */
    method VaultUpdate(newer: SdlState, global: bool, now: Stamp) returns (outcome: Outcome)
      requires this != newer && Valid() && newer.Valid() && newer.desc == desc
      requires desc.structs == [] && newer.structs == [] && AllThere(newer.vars)
      modifies this, newer
      ensures Valid()
      ensures
        var n := |desc.vars|;
        var m, all := BaseVars(old(vars), n), BaseVars(old(newer.vars), n);
        var mode := Mode(true, global, false, now);
        && (AllThere(all) <==> |old(newer.vars)| >= n || Aligned(old(newer.vars)))
        && (outcome.NullMet? ==> !AllThere(all))
        && (!AllThere(all) ==> !outcome.Fine?)
        && outcome == (if !MergeRooms(m, old(RoomsNow()), Values(all[..UpToNull(all)]), mode).1 then Outside
                       else if AllThere(all) then Fine else NullMet)
        && (AllThere(all) ==>
              && (vars, newer.vars) == MergeAll(m, Values(all), mode)
              && rooms == MergeRooms(m, old(RoomsNow()), Values(all), mode).0
              && (outcome.Fine? <==> MergeRooms(m, old(RoomsNow()), Values(all), mode).1))
    {
      newer.Expand();
      ghost var m, all, mode := BaseVars(vars, |desc.vars|), newer.vars, Mode(true, global, false, now);
      ghost var froms := Values(all[..UpToNull(all)]);
      assert all[..|all|] == all;
      ghost var base;
      outcome, base := UpdateFrom(newer, Mode(true, global, false, now));
      NullsMet(all);
      Ended(MergeAll(m, froms, mode).1, all, UpToNull(all));
    }

    /** The arrays, after an expansion if it is needed. */
    ghost function RoomsNow(): seq<Option<nat>>
      reads this
    {
      if |vars| < |desc.vars| then Rooms(BaseVars(vars, |desc.vars|)) else rooms
    }

    /** What the vault says of an age that is loaded takes over the state that was saved; a null entry
        is met exactly if that has one. */
    method AgeLoad(saved: SdlState, now: Stamp) returns (outcome: Outcome)
      requires this != saved && Valid() && saved.Valid() && saved.desc == desc
      requires Complete(saved.structs, |desc.structs|)
      modifies this, saved
      ensures Valid()
      ensures outcome == if AllThere(old(saved.vars)) then Fine else NullMet
      ensures AllThere(old(saved.vars)) ==>
                (vars, saved.vars)
                == MergeAll(BaseVars(old(vars), |desc.vars|), Values(old(saved.vars)), Mode(false, true, true, now))
    {
      Expand();
      ghost var m, was, all := vars, rooms, saved.vars;
      assert all[..|all|] == all;
      ghost var base;
      outcome, base := UpdateFrom(saved, Mode(false, true, true, now));
      NullsMet(all);
      ghost var froms, mode := Values(all[..UpToNull(all)]), Mode(false, true, true, now);
      SwipesInside(m, was, froms, mode);
      Ended(MergeAll(m, froms, mode).1, all, UpToNull(all));
    }

    method MergeStructs(newer: SdlState)
      requires this != newer && Complete(newer.structs, |structs|)
      modifies this`structs, newer`structs
      ensures structs == PutAll(old(structs), Values(old(newer.structs)))
      ensures forall i | 0 <= i < |newer.structs| :: newer.structs[i].None?
    {
      ghost var start, subs := structs, Values(newer.structs);
      assert subs[0..] == subs;
      for i := 0 to |newer.structs|
        invariant |newer.structs| == |subs| && |structs| == |start|
        invariant forall j | i <= j < |subs| :: newer.structs[j] == Some(subs[j])
        invariant forall j | 0 <= j < i :: newer.structs[j].None?
        invariant PutAll(start, subs) == PutAll(structs, subs[i..])
      {
        var from := newer.structs[i].value;
        assert subs[i..][0] == from && subs[i..][1..] == subs[i + 1..];
        structs := structs[from.index := Some(from)];
        newer.structs := newer.structs[i := None];
      }
      assert subs[|subs|..] == [];
    }
  }

  lemma Ended(lefts: seq<Option<Var>>, all: seq<Option<Var>>, n: nat)
    requires n <= |all|
    ensures n == |all| ==> lefts + all[n..] == lefts
  {
  }

  lemma NullsMet(all: seq<Option<Var>>)
    ensures AllThere(all) <==> UpToNull(all) == |all|
  {
    if UpToNull(all) < |all| {
      assert all[UpToNull(all)].None?;
    }
  }

  /** Only what comes from the vault is copied. */
  lemma {:induction false} SwipesInside(m: seq<Option<Var>>, rooms: seq<Option<nat>>, froms: seq<Var>, mode: Mode)
    requires InRange(froms, |m|) && |rooms| == |m| && !mode.vault
    ensures MergeRooms(m, rooms, froms, mode).1
    decreases froms
  {
    hide MergeOne;
    if froms != [] {
      var i := froms[0].index;
      var room := MergeRoom(m[i], rooms[i], froms[0], mode).0;
      SwipesInside(m[i := MergeOne(m[i], froms[0], mode).0], rooms[i := room], froms[1..], mode);
    }
  }

  /** An age is loaded with a state just read from a file. */
  method LoadAge(vault: SdlState, saved: SdlState, now: Stamp) returns (outcome: Outcome)
    requires vault != saved && vault.Valid() && saved.Valid() && saved.desc == vault.desc
    requires AllThere(saved.vars) && Complete(saved.structs, |saved.desc.structs|)
    modifies vault, saved
    ensures outcome.NullMet? <==> |old(saved.vars)| < |saved.desc.vars| && !Aligned(old(saved.vars))
    ensures outcome.NullMet? || outcome.Fine?
  {
    ghost var before := saved.structs;
    saved.Expand();
    if |before| < |saved.desc.structs| {
      DescentsBelow(before, |saved.desc.structs|, saved.structs);
    }
    outcome := vault.AgeLoad(saved, now);
  }

  // ---------- Where arrays are too small ----------

  /** A variable of declared length has an array of that length, if any. */
  predicate FixedSlot(slot: Option<Var>, room: Option<nat>, count: nat) {
    && (room.Some? ==> room.value == count)
    && (slot.Some? && !SameAsDefault(slot.value.flags) ==> slot.value.count == count && room.Some?)
  }

  predicate AllFixed(m: seq<Option<Var>>, rooms: seq<Option<nat>>, counts: seq<nat>) {
    |m| == |rooms| == |counts| && forall i | 0 <= i < |m| :: FixedSlot(m[i], rooms[i], counts[i])
  }

  predicate FixedEntries(froms: seq<Var>, counts: seq<nat>) {
    InRange(froms, |counts|)
    && forall j | 0 <= j < |froms| && !SameAsDefault(froms[j].flags) :: froms[j].count == counts[froms[j].index]
  }

  /** If all variables are of a declared length, no copy ends outside, now or in any later update. */
  lemma {:induction false} FixedIsInside(
    m: seq<Option<Var>>, rooms: seq<Option<nat>>, froms: seq<Var>, mode: Mode, counts: seq<nat>)
    requires AllFixed(m, rooms, counts) && FixedEntries(froms, counts)
    ensures MergeRooms(m, rooms, froms, mode).1
    ensures AllFixed(MergeAll(m, froms, mode).0, MergeRooms(m, rooms, froms, mode).0, counts)
    decreases froms
  {
    if froms != [] {
      var i := froms[0].index;
      var to, room := MergeOne(m[i], froms[0], mode).0, MergeRoom(m[i], rooms[i], froms[0], mode).0;
      FixedOne(m[i], rooms[i], froms[0], mode, counts[i]);
      FixedIsInside(m[i := to], rooms[i := room], froms[1..], mode, counts);
    }
  }

  lemma FixedOne(to: Option<Var>, room: Option<nat>, from: Var, mode: Mode, count: nat)
    requires FixedSlot(to, room, count) && (!SameAsDefault(from.flags) ==> from.count == count)
    ensures MergeRoom(to, room, from, mode).1
    ensures FixedSlot(MergeOne(to, from, mode).0, MergeRoom(to, room, from, mode).0, count)
  {
    hide HasTimeStamp, HasDirtyFlag, SameAsDefault;
  }

  /** A variable of open length holds one value, is set back to its default, and then gets two: they
      are copied into the array of one. */
  method OpenLengthOverruns(desc: Desc, one: Var, two: Var, now: Stamp) returns (master: SdlState, outcome: Outcome)
    requires |desc.vars| == 1 && desc.structs == []
    requires one.index == two.index == 0 && one.flags == two.flags == 0x10 && one.count == 1 && two.count == 2
    ensures outcome == Outside
  {
    var none := Entry(0, 0x18, NoStamp, 0, []);
    master := new SdlState(desc, [Some(one)], []);
    var back := new SdlState(desc, [Some(none)], []);
    outcome := master.VaultUpdate(back, false, now);
    OneEntry(Some(one), Some(1), none, Mode(true, false, false, now));
    assert Values([Some(none)]) == [none];
    assert master.rooms == [Some(1)] && master.vars == [Some(Stamped(none, now))];
    var more := new SdlState(desc, [Some(two)], []);
    outcome := master.VaultUpdate(more, false, now);
    OneEntry(Some(Stamped(none, now)), Some(1), two, Mode(true, false, false, now));
    assert Values([Some(two)]) == [two];
  }

  lemma OneEntry(to: Option<Var>, room: Option<nat>, from: Var, mode: Mode)
    requires from.index == 0
    ensures MergeAll([to], [from], mode) == ([MergeOne(to, from, mode).0], [MergeOne(to, from, mode).1])
    ensures MergeRooms([to], [room], [from], mode)
            == ([MergeRoom(to, room, from, mode).0], MergeRoom(to, room, from, mode).1)
  {
    hide MergeOne, MergeRoom, MergeAll, MergeRooms;
    var none: seq<Var> := [];
    assert [from][1..] == none && [from][0..] == [from];
    MergeSteps([to], [room], [from], 0, mode);
    var to', room' := MergeOne(to, from, mode).0, MergeRoom(to, room, from, mode).0;
    assert [to][0 := to'] == [to'] && [room][0 := room'] == [room'];
    MergeNone([to'], [room'], mode);
    assert [MergeOne(to, from, mode).1] + [] == [MergeOne(to, from, mode).1];
  }

  ghost predicate Complete<T>(slots: seq<Option<Entry<T>>>, n: nat) {
    forall i | 0 <= i < |slots| :: slots[i].Some? && slots[i].value.index < n
  }

  /** Structs are always replaced. */
  function PutAll(ss: seq<Option<Sub>>, froms: seq<Sub>): (r: seq<Option<Sub>>)
    requires forall i | 0 <= i < |froms| :: froms[i].index < |ss|
    ensures |r| == |ss|
    decreases froms
  {
    if froms == [] then ss else PutAll(ss[froms[0].index := Some(froms[0])], froms[1..])
  }

  // ---------- Client updates ----------

  datatype Write = Write(entry: Var, at: Stamp)

  /** One client message, applied at a time. */
  datatype Update = Update(entries: seq<Var>, at: Stamp)

  predicate UpdatesInRange(us: seq<Update>, n: nat) { forall k | 0 <= k < |us| :: InRange(us[k].entries, n) }

  function FromClient(at: Stamp): Mode { Mode(false, true, false, at) }

  /** The master after a series of client updates. */
  function RunUpdates(m: seq<Option<Var>>, us: seq<Update>): (r: seq<Option<Var>>)
    requires UpdatesInRange(us, |m|)
    ensures |r| == |m|
    decreases us
  {
    if us == [] then m
    else RunUpdates(MergeAll(m, us[0].entries, FromClient(us[0].at)).0, us[1..])
  }

  function Writes(entries: seq<Var>, at: Stamp): seq<Write> {
    if entries == [] then [] else [Write(entries[0], at)] + Writes(entries[1..], at)
  }

  function Log(us: seq<Update>): seq<Write> {
    if us == [] then [] else Writes(us[0].entries, us[0].at) + Log(us[1..])
  }

  /** What a slot should hold: the latest dirty write to it, marked with the time it arrived. */
  function LastWrite(initial: Option<Var>, i: nat, log: seq<Write>): Option<Var> {
    if log == [] then initial
    else
      var w := log[|log| - 1];
      if w.entry.index == i && HasDirtyFlag(w.entry.flags) then Some(Stamped(w.entry, w.at))
      else LastWrite(initial, i, log[..|log| - 1])
  }

  lemma {:induction false} LastWriteSplits(initial: Option<Var>, i: nat, a: seq<Write>, b: seq<Write>)
    ensures LastWrite(initial, i, a + b) == LastWrite(LastWrite(initial, i, a), i, b)
  {
    if b == [] {
      assert a + b == a;
    } else {
      assert (a + b)[..|a + b| - 1] == a + b[..|b| - 1];
      LastWriteSplits(initial, i, a, b[..|b| - 1]);
    }
  }

  lemma {:induction false} UpdateIsLastWrite(m: seq<Option<Var>>, entries: seq<Var>, at: Stamp, i: nat)
    requires InRange(entries, |m|) && i < |m|
    ensures MergeAll(m, entries, FromClient(at)).0[i] == LastWrite(m[i], i, Writes(entries, at))
    decreases entries
  {
    if entries != [] {
      var w := [Write(entries[0], at)];
      var m' := m[entries[0].index := MergeOne(m[entries[0].index], entries[0], FromClient(at)).0];
      assert w[..0] == [];
      assert m'[i] == LastWrite(m[i], i, w);
      UpdateIsLastWrite(m', entries[1..], at, i);
      LastWriteSplits(m[i], i, w, Writes(entries[1..], at));
    }
  }

  /** Over any series of client updates, every slot of the master holds the last dirty write to it. */
  lemma {:induction false} ClientUpdatesLastWriteWins(m: seq<Option<Var>>, us: seq<Update>, i: nat)
    requires UpdatesInRange(us, |m|) && i < |m|
    ensures RunUpdates(m, us)[i] == LastWrite(m[i], i, Log(us))
    decreases us
  {
    if us != [] {
      var m' := MergeAll(m, us[0].entries, FromClient(us[0].at)).0;
      UpdateIsLastWrite(m, us[0].entries, us[0].at, i);
      ClientUpdatesLastWriteWins(m', us[1..], i);
      LastWriteSplits(m[i], i, Writes(us[0].entries, us[0].at), Log(us[1..]));
    }
  }

  // ---------- Vault updates ----------

  /** Applying what is left in a received state, as whoever it is forwarded to would. */
  function Replay(m: seq<Option<Var>>, lefts: seq<Option<Var>>, now: Stamp): seq<Option<Var>>
    requires forall j | 0 <= j < |lefts| && lefts[j].Some? :: lefts[j].value.index < |m|
    decreases lefts
  {
    if lefts == [] then m
    else if lefts[0].None? then Replay(m, lefts[1..], now)
    else Replay(m[lefts[0].value.index := Some(Stamped(lefts[0].value, now))], lefts[1..], now)
  }

  /** No dirty entry is for an empty slot. */
  predicate SlotsThere(m: seq<Option<Var>>, froms: seq<Var>)
    requires InRange(froms, |m|)
  {
    forall j | 0 <= j < |froms| && HasDirtyFlag(froms[j].flags) :: m[froms[j].index].Some?
  }

  lemma {:induction false} VaultForwardsWhatItApplies(m: seq<Option<Var>>, froms: seq<Var>, global: bool, now: Stamp)
    requires InRange(froms, |m|) && SlotsThere(m, froms)
    ensures
      var (m', lefts) := MergeAll(m, froms, Mode(true, global, false, now));
      && LeftInPlace(froms, lefts)
      && Replay(m, lefts, now) == m'
    decreases froms
  {
    if froms != [] {
      var mode := Mode(true, global, false, now);
      var (to, left) := MergeOne(m[froms[0].index], froms[0], mode);
      VaultForwardsWhatItApplies(m[froms[0].index := to], froms[1..], global, now);
      if left.None? {
        assert m[froms[0].index := to] == m;
      }
    }
  }

  predicate LeftInPlace(froms: seq<Var>, lefts: seq<Option<Var>>) {
    |lefts| == |froms| && forall j | 0 <= j < |lefts| && lefts[j].Some? ::
      lefts[j].value == froms[j] && HasDirtyFlag(froms[j].flags)
  }

  /** An entry for an empty slot is forwarded but lost to the master. */
  lemma {:induction false} EmptySlotIsLost(m: seq<Option<Var>>, froms: seq<Var>, global: bool, now: Stamp, i: nat)
    requires InRange(froms, |m|) && i < |m| && m[i].None?
    ensures var (m', lefts) := MergeAll(m, froms, Mode(true, global, false, now));
            && m'[i].None? && LeftInPlace(froms, lefts)
            && forall j | 0 <= j < |froms| && froms[j].index == i && HasDirtyFlag(froms[j].flags) :: lefts[j].Some?
    decreases froms
  {
    if froms != [] {
      var to := MergeOne(m[froms[0].index], froms[0], Mode(true, global, false, now)).0;
      EmptySlotIsLost(m[froms[0].index := to], froms[1..], global, now, i);
    }
  }

  /** Such a state is reached: two variables come in the wrong order, and only then, from the vault,
      what was lost. */
  method LateEntryIsLost(desc: Desc, a: Var, b: Var, late: Var, now: Stamp, global: bool)
    returns (master: SdlState, newer: SdlState, outcome: Outcome)
    requires |desc.vars| == 3 && desc.structs == []
    requires a.index == 1 && b.index == 0 && late.index == 1 && HasDirtyFlag(late.flags)
    ensures outcome.Fine? && master.vars == [Some(b), None, Some(Default(2))] && newer.vars == [None, Some(late), None]
  {
    master := new SdlState(desc, [Some(a), Some(b)], []);
    newer := new SdlState(desc, [Some(late)], []);
    EmptySlotIsReached(a, b);
    master.Expand();
    OneLateEntry(late);
    ghost var m, was := master.vars, master.rooms;
    outcome := master.VaultUpdate(newer, global, now);
    LateMerge(m, was, late, Mode(true, global, false, now));
  }

  lemma OneLateEntry(late: Var)
    requires late.index == 1
    ensures VarsExpanded([Some(late)], 3) == [Some(Default(0)), Some(late), Some(Default(2))]
    ensures Aligned([Some(late)])
  {
    hide Descend, Cleanup;
    var m0 := Spread([Some(late)], 3);
    assert m0 == [Some(late), None, None];
    var m1 := m0[2 := Some(Default(2))];
    var m2 := [None, Some(late), Some(Default(2))];
    var m3 := m2[0 := Some(Default(0))];
    PassSteps(m0, 0, 2);
    assert Filled(Moved(m1, 0, 1), 1) == m2;
    PassSteps(m1, 0, 1);
    PassSteps(m2, -1, 0);
    PassEnds(m3, -1);
  }

  lemma LateMerge(m: seq<Option<Var>>, rooms: seq<Option<nat>>, late: Var, mode: Mode)
    requires |m| == |rooms| == 3 && m[1].None? && mode.vault && late.index == 1 && HasDirtyFlag(late.flags)
    ensures
      var froms := Values([Some(Default(0)), Some(late), Some(Default(2))]);
      && MergeAll(m, froms, mode) == (m, [None, Some(late), None])
      && MergeRooms(m, rooms, froms, mode).1
  {
    hide MergeOne, MergeRoom, MergeAll, MergeRooms;
    var froms := Values([Some(Default(0)), Some(late), Some(Default(2))]);
    var none: seq<Var> := [];
    assert froms == [Default(0), late, Default(2)] && froms[0..] == froms && froms[3..] == none;
    assert forall i | 0 <= i < 3 :: m[i := m[i]] == m && rooms[i := rooms[i]] == rooms;
    NotDirty(m[0], rooms[0], 0, mode);
    NotDirty(m[2], rooms[2], 2, mode);
    NoSlot(rooms[1], late, mode);
    MergeNone(m, rooms, mode);
    MergeSteps(m, rooms, froms, 2, mode);
    var dropped: seq<Option<Var>>, left: Option<Var> := [None], Some(late);
    assert dropped + [] == dropped && [left] + dropped == [left, None] && dropped + [left, None] == [None, left, None];
    assert MergeAll(m, froms[2..], mode) == (m, dropped);
    MergeSteps(m, rooms, froms, 1, mode);
    assert MergeAll(m, froms[1..], mode) == (m, [left, None]);
    MergeSteps(m, rooms, froms, 0, mode);
  }

  lemma NotDirty(to: Option<Var>, room: Option<nat>, i: nat, mode: Mode)
    requires mode.vault
    ensures MergeOne(to, Default(i), mode) == (to, None) && MergeRoom(to, room, Default(i), mode) == (room, true)
  {
  }

  lemma NoSlot(room: Option<nat>, from: Var, mode: Mode)
    requires mode.vault && HasDirtyFlag(from.flags)
    ensures MergeOne(None, from, mode) == (None, Some(from)) && MergeRoom(None, room, from, mode) == (room, true)
  {
  }

  lemma OneBeforeNull(b: Var)
    ensures
      var all := [Some(b), None, Some(Default(2))];
      UpToNull(all) == 1 && Values(all[..1]) == [b] && !AllThere(all)
  {
    var all: seq<Option<Var>> := [Some(b), None, Some(Default(2))];
    assert all[1..][0].None? && all[..1] == [Some(b)];
    assert UpToNull(all[1..]) == 0;
  }

  lemma OnlyFirst(m: seq<Option<Var>>, rooms: seq<Option<nat>>, b: Var, mode: Mode)
    requires |m| == |rooms| && b.index == 0 && |m| > 0
    ensures MergeRooms(m, rooms, [b], mode).1 == MergeRoom(m[0], rooms[0], b, mode).1
  {
    hide MergeOne, MergeRoom, MergeRooms;
    var none: seq<Var> := [];
    assert [b][1..] == none && [b][0..] == [b];
    MergeSteps(m, rooms, [b], 0, mode);
    var m', rooms' := m[0 := MergeOne(m[0], b, mode).0], rooms[0 := MergeRoom(m[0], rooms[0], b, mode).0];
    MergeNone(m', rooms', mode);
  }

  /** And the vault's own entries in the wrong order end in a null entry taken for a variable, unless the
      copy of the one before it has ended outside its array already. */
  method WrongOrderMeetsNull(master: SdlState, a: Var, b: Var, now: Stamp, global: bool) returns (outcome: Outcome)
    requires master.Valid() && |master.desc.vars| == 3 && master.desc.structs == [] && a.index == 1 && b.index == 0
    modifies master
    ensures
      var m, rooms := BaseVars(old(master.vars), 3), old(master.RoomsNow());
      outcome == if MergeRoom(m[0], rooms[0], b, Mode(true, global, false, now)).1 then NullMet else Outside
  {
    ghost var m, rooms := BaseVars(master.vars, 3), master.RoomsNow();
    var newer := new SdlState(master.desc, [Some(a), Some(b)], []);
    EmptySlotIsReached(a, b);
    OneBeforeNull(b);
    OnlyFirst(m, rooms, b, Mode(true, global, false, now));
    assert !Aligned(newer.vars) by {
      assert newer.vars[1].Some?;
    }
    outcome := master.VaultUpdate(newer, global, now);
  }

  lemma {:induction false} ReplayFills(m: seq<Option<Var>>, lefts: seq<Option<Var>>, now: Stamp, i: nat)
    requires forall j | 0 <= j < |lefts| && lefts[j].Some? :: lefts[j].value.index < |m|
    requires i < |m| && (m[i].Some? || exists j :: 0 <= j < |lefts| && lefts[j].Some? && lefts[j].value.index == i)
    ensures |Replay(m, lefts, now)| == |m| && Replay(m, lefts, now)[i].Some?
    decreases lefts
  {
    if lefts != [] {
      var m' := if lefts[0].None? then m else m[lefts[0].value.index := Some(Stamped(lefts[0].value, now))];
      if m'[i].None? {
        var j :| 0 <= j < |lefts| && lefts[j].Some? && lefts[j].value.index == i;
        assert lefts[1..][j - 1] == lefts[j];
      }
      ReplayFills(m', lefts[1..], now, i);
    }
  }

  /** In a vault update, the entries left for forwarding are dirty received entries in their places,
      and replaying them gives the new master: exactly when no dirty entry is for an empty slot. */
  lemma VaultForwardsExactly(m: seq<Option<Var>>, froms: seq<Var>, global: bool, now: Stamp)
    requires InRange(froms, |m|)
    ensures
      var (m', lefts) := MergeAll(m, froms, Mode(true, global, false, now));
      && (SlotsThere(m, froms) ==> LeftInPlace(froms, lefts))
      && ((LeftInPlace(froms, lefts) && Replay(m, lefts, now) == m') <==> SlotsThere(m, froms))
  {
    var (m', lefts) := MergeAll(m, froms, Mode(true, global, false, now));
    if SlotsThere(m, froms) {
      VaultForwardsWhatItApplies(m, froms, global, now);
    } else {
      var j :| 0 <= j < |froms| && HasDirtyFlag(froms[j].flags) && m[froms[j].index].None?;
      EmptySlotIsLost(m, froms, global, now, froms[j].index);
      assert lefts[j].Some? && lefts[j].value.index == froms[j].index;
      ReplayFills(m, lefts, now, froms[j].index);
    }
  }

  /** What could take the place of a timestamped value in a global update. */
  predicate Newer(from: Var, i: nat, stamp: Stamp) {
    && from.index == i && HasDirtyFlag(from.flags)
    && HasTimeStamp(from.flags) && !Earlier(from.stamp, stamp)
  }

  /** A global vault update never replaces a timestamped value by one with an earlier time or none. */
  lemma {:induction false} GlobalKeepsNewer(m: seq<Option<Var>>, froms: seq<Var>, now: Stamp, i: nat)
    requires InRange(froms, |m|) && i < |m| && m[i].Some? && HasTimeStamp(m[i].value.flags)
    requires forall j | 0 <= j < |froms| :: !Newer(froms[j], i, m[i].value.stamp)
    ensures MergeAll(m, froms, Mode(true, true, false, now)).0[i] == m[i]
    decreases froms
  {
    if froms != [] {
      var to := MergeOne(m[froms[0].index], froms[0], Mode(true, true, false, now)).0;
      assert !Newer(froms[0], i, m[i].value.stamp);
      assert m[froms[0].index := to][i] == m[i];
      GlobalKeepsNewer(m[froms[0].index := to], froms[1..], now, i);
    }
  }

  /** What a slot's value gives way to in a global update. */
  predicate Accepts(v: Var, i: nat, from: Var) {
    && from.index == i && HasDirtyFlag(from.flags)
    && (HasTimeStamp(v.flags) ==> HasTimeStamp(from.flags) && !Earlier(from.stamp, v.stamp))
  }

  lemma OneGlobal(to: Option<Var>, i: nat, from: Var, now: Stamp)
    requires from.index == i
    ensures
      MergeOne(to, from, Mode(true, true, false, now)).0 ==
        if to.Some? && Accepts(to.value, i, from) then Some(Stamped(from, now)) else to
  {
  }

  /** The first entry that a slot's value gives way to. */
  function FirstAccepted(v: Var, i: nat, froms: seq<Var>): (f: Option<nat>)
    ensures f.None? ==> forall k | 0 <= k < |froms| :: !Accepts(v, i, froms[k])
    ensures f.Some? ==> f.value < |froms| && Accepts(v, i, froms[f.value])
    ensures f.Some? ==> forall k | 0 <= k < f.value :: !Accepts(v, i, froms[k])
  {
    if froms == [] then None
    else if Accepts(v, i, froms[0]) then Some(0)
    else
      var f := FirstAccepted(v, i, froms[1..]);
      if f.None? then None else Some(f.value + 1)
  }

  /** The last entry for a slot that is not earlier than now. */
  function LastNewer(i: nat, froms: seq<Var>, now: Stamp): (j: Option<nat>)
    ensures j.None? ==> forall k | 0 <= k < |froms| :: !Newer(froms[k], i, now)
    ensures j.Some? ==> j.value < |froms| && Newer(froms[j.value], i, now)
    ensures j.Some? ==> forall k | j.value < k < |froms| :: !Newer(froms[k], i, now)
  {
    if froms == [] then None
    else
      var j := LastNewer(i, froms[1..], now);
      if j.Some? then Some(j.value + 1) else if Newer(froms[0], i, now) then Some(0) else None
  }

  lemma {:induction false} OnceStamped(m: seq<Option<Var>>, froms: seq<Var>, now: Stamp, i: nat, v: Var)
    requires InRange(froms, |m|) && i < |m| && m[i] == Some(Stamped(v, now))
    ensures
      var j := LastNewer(i, froms, now);
      MergeAll(m, froms, Mode(true, true, false, now)).0[i]
      == Some(Stamped(if j.Some? then froms[j.value] else v, now))
    decreases froms
  {
    hide MergeOne, Stamped, Accepts, Newer;
    if froms != [] {
      var from, rest := froms[0], froms[1..];
      var m' := m[from.index := MergeOne(m[from.index], from, Mode(true, true, false, now)).0];
      OneGlobal(m[from.index], from.index, from, now);
      StampedAccepts(v, i, from, now);
      ForSlot(v, i, from, now);
      OnceStamped(m', rest, now, i, if Newer(from, i, now) then from else v);
    }
  }

  lemma StampedAccepts(v: Var, i: nat, from: Var, now: Stamp)
    ensures Accepts(Stamped(v, now), i, from) <==> Newer(from, i, now)
  {
  }

  lemma ForSlot(v: Var, i: nat, from: Var, now: Stamp)
    ensures Accepts(v, i, from) || Newer(from, i, now) ==> from.index == i
  {
  }

  /** Which entry a slot holds after any global update.  An empty one stays empty, and any other keeps
      its value unless an entry is accepted.  As the first that is gets the current time, the slot then
      holds the last entry after it that is not earlier than now, or else that first one. */
  lemma {:induction false} GlobalHolds(m: seq<Option<Var>>, froms: seq<Var>, now: Stamp, i: nat)
    requires InRange(froms, |m|) && i < |m|
    ensures
      var slot := MergeAll(m, froms, Mode(true, true, false, now)).0[i];
      if m[i].None? then slot.None?
      else
        match FirstAccepted(m[i].value, i, froms)
        case None => slot == m[i]
        case Some(f) =>
          var j := LastNewer(i, froms, now);
          slot == Some(Stamped(froms[if j.Some? && j.value > f then j.value else f], now))
    decreases froms
  {
    hide MergeOne, Stamped, Accepts, Newer;
    if froms != [] {
      var from, rest := froms[0], froms[1..];
      var m' := m[from.index := MergeOne(m[from.index], from, Mode(true, true, false, now)).0];
      OneGlobal(m[from.index], from.index, from, now);
      if m[i].Some? {
        ForSlot(m[i].value, i, from, now);
      }
      if m[i].Some? && Accepts(m[i].value, i, from) {
        OnceStamped(m', rest, now, i, from);
      } else {
        GlobalHolds(m', rest, now, i);
      }
    }
  }

  // ---------- Age load ----------

  predicate Timed(from: Var, i: nat) { from.index == i && HasDirtyFlag(from.flags) && HasTimeStamp(from.flags) }

  predicate AtLeast(slot: Option<Var>, stamp: Stamp) {
    slot.Some? && HasTimeStamp(slot.value.flags) && !Earlier(slot.value.stamp, stamp)
  }

  /** When an age is loaded the later time wins in every slot: the result is no earlier than the
      vault's time or any saved time for that slot, and is one of those values (or the vault's
      untimed value, or a saved value in an empty slot, marked with the current time). */
  lemma {:induction false} AgeLoadLatestWins(m: seq<Option<Var>>, froms: seq<Var>, now: Stamp, i: nat)
    requires InRange(froms, |m|) && i < |m|
    ensures
      var slot := MergeAll(m, froms, Mode(false, true, true, now)).0[i];
      && (m[i].Some? && HasTimeStamp(m[i].value.flags) ==> AtLeast(slot, m[i].value.stamp))
      && (forall j | 0 <= j < |froms| && Timed(froms[j], i) :: AtLeast(slot, froms[j].stamp))
      && (slot == m[i] || (m[i].Some? && slot == Some(Stamped(m[i].value, now)))
          || exists j :: 0 <= j < |froms| && froms[j].index == i
                         && (slot == Some(froms[j]) || slot == Some(Stamped(froms[j], now))))
    decreases froms
  {
    if froms != [] {
      var mode := Mode(false, true, true, now);
      var to := MergeOne(m[froms[0].index], froms[0], mode).0;
      var m' := m[froms[0].index := to];
      AgeLoadLatestWins(m', froms[1..], now, i);
      var slot := MergeAll(m, froms, mode).0[i];
      assert slot == MergeAll(m', froms[1..], mode).0[i];
      forall j | 0 <= j < |froms| && Timed(froms[j], i) ensures AtLeast(slot, froms[j].stamp) {
        if j > 0 {
          assert Timed(froms[1..][j - 1], i);
        }
      }
      if j :| 0 <= j < |froms[1..]| && froms[1..][j].index == i
              && (slot == Some(froms[1..][j]) || slot == Some(Stamped(froms[1..][j], now))) {
        assert froms[j + 1] == froms[1..][j];
      }
    }
  }
}

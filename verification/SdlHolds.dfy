/** Which values a state holds after an update, and which are forwarded, said in the fields of the
    entries that came. */
module SdlHolds {
  import opened Wire
  import opened SdlModel
  import opened SdlExpand
  import opened SdlMerge

  /** An entry for a slot that is marked as changed. */
  predicate Changed(from: Var, i: nat) { from.index == i && HasBit(from.flags, 16) }

  /** Everything but the time, and the flag that there is one, is the same. */
  predicate Alike(a: Var, b: Var) {
    && a.index == b.index && a.count == b.count
    && (a.flags % 4 == b.flags % 4 && a.flags / 8 == b.flags / 8)
    && |a.items| == |b.items| && forall k | 0 <= k < |a.items| :: a.items[k] == b.items[k]
  }

  /** The slot holds what came, with a time. */
  predicate HoldsAt(slot: Option<Var>, from: Var, now: Stamp) {
    slot.Some? && Alike(slot.value, from) && HasBit(slot.value.flags, 4) && slot.value.stamp == now
  }

  lemma SameItems(a: Var, b: Var)
    ensures (|a.items| == |b.items| && forall k | 0 <= k < |a.items| :: a.items[k] == b.items[k])
            <==> a.items == b.items
  {
  }

  // ---------- A player's vault ----------

  function OfPlayer(now: Stamp): Mode { Mode(true, false, false, now) }

  /** One entry, in fields. */
  lemma PlayerOne(to: Option<Var>, from: Var, now: Stamp)
    ensures
      var (slot, left) := MergeOne(to, from, OfPlayer(now));
      if to.None? then slot.None? && left == if Changed(from, from.index) then Some(from) else None
      else if !Changed(from, from.index) || Alike(to.value, from) then slot == to && left.None?
      else HoldsAt(slot, from, now) && left == Some(from)
  {
    if to.Some? {
      SameItems(to.value, from);
      FlagsOf(to.value.flags, from.flags);
      WithTime(from.flags);
    }
  }

  lemma WithTime(f: Byte)
    ensures var g := WithTimeStamp(f); g % 4 == f % 4 && g / 8 == f / 8 && HasBit(g, 4) && HasTimeStamp(g)
  {
    if !HasTimeStamp(f) {
      NoCarry(f);
    }
  }

  lemma NoCarry(f: nat)
    requires f / 4 % 2 == 0
    ensures (f + 4) % 4 == f % 4 && (f + 4) / 8 == f / 8 && (f + 4) / 4 == f / 4 + 1
  {
    var h, r := f / 4, f % 4;
    var q := h / 2;
    assert f == 4 * h + r && h == 2 * q;
    Quarter(f + 4, h + 1, r);
    Eighth(f, q, r);
    Eighth(f + 4, q, r + 4);
  }

  lemma Quarter(n: nat, q: nat, r: nat)
    requires n == 4 * q + r && r < 4
    ensures n / 4 == q && n % 4 == r
  {
  }

  lemma Eighth(n: nat, q: nat, r: nat)
    requires n == 8 * q + r && r < 8
    ensures n / 8 == q
  {
  }

  lemma FlagsOf(f: Byte, g: Byte)
    ensures WithoutTimeStamp(f) == WithoutTimeStamp(g) <==> f % 4 == g % 4 && f / 8 == g / 8
    ensures HasDirtyFlag(g) <==> HasBit(g, 16)
  {
  }

  /** The last entry for a slot that is marked as changed, among the first n; or what was there. */
  function LastChange(v: Var, i: nat, froms: seq<Var>, n: nat): Var
    requires n <= |froms|
  {
    if n == 0 then v
    else if Changed(froms[n - 1], i) then froms[n - 1]
    else LastChange(v, i, froms, n - 1)
  }

  lemma {:induction false} LastFrom(v: Var, i: nat, froms: seq<Var>, n: nat)
    requires 0 < n <= |froms|
    ensures LastChange(v, i, froms, n)
            == LastChange(if Changed(froms[0], i) then froms[0] else v, i, froms[1..], n - 1)
  {
    hide Changed;
    if n > 1 {
      assert froms[1..][n - 2] == froms[n - 1];
      LastFrom(v, i, froms, n - 1);
    }
  }

  lemma {:induction false} AlikeLast(v: Var, w: Var, i: nat, froms: seq<Var>, n: nat)
    requires n <= |froms| && Alike(v, w)
    ensures Alike(LastChange(v, i, froms, n), LastChange(w, i, froms, n))
  {
    hide Changed;
    if n > 0 {
      AlikeLast(v, w, i, froms, n - 1);
    }
  }

  /** Some entry for the slot says something new. */
  predicate News(v: Var, i: nat, froms: seq<Var>) {
    exists k :: 0 <= k < |froms| && Changed(froms[k], i) && !Alike(v, froms[k])
  }

  lemma NewsFrom(v: Var, w: Var, i: nat, froms: seq<Var>)
    requires froms != [] && Alike(v, w)
    ensures News(v, i, froms) <==> (Changed(froms[0], i) && !Alike(v, froms[0])) || News(w, i, froms[1..])
  {
    if k :| 0 <= k < |froms| && Changed(froms[k], i) && !Alike(v, froms[k]) {
      assert k > 0 ==> froms[1..][k - 1] == froms[k];
    }
    if k :| 0 <= k < |froms[1..]| && Changed(froms[1..][k], i) && !Alike(w, froms[1..][k]) {
      assert froms[k + 1] == froms[1..][k];
    }
  }

  /** What a slot holds after any update from a player's vault.  An empty one stays empty; one for which
      nothing comes that is new is as it was; and any other holds the last entry that is marked as
      changed, with the current time. */
  lemma {:induction false} PlayerHolds(m: seq<Option<Var>>, froms: seq<Var>, now: Stamp, i: nat)
    requires InRange(froms, |m|) && i < |m|
    ensures
      var slot := MergeAll(m, froms, OfPlayer(now)).0[i];
      if m[i].None? then slot.None?
      else if !News(m[i].value, i, froms) then slot == m[i]
      else HoldsAt(slot, LastChange(m[i].value, i, froms, |froms|), now)
    decreases froms
  {
    hide MergeOne, Changed, Alike, HoldsAt, News, LastChange;
    if froms == [] {
      NoNews(m, i);
    } else {
      var from, rest := froms[0], froms[1..];
      var m' := m[from.index := MergeOne(m[from.index], from, OfPlayer(now)).0];
      PlayerOne(m[from.index], from, now);
      ChangedIndex(from, i);
      PlayerHolds(m', rest, now, i);
      if m[i].Some? {
        PlayerSlot(m[i].value, m'[i], from, rest, froms, i, now, MergeAll(m', rest, OfPlayer(now)).0[i]);
      }
    }
  }

  lemma NoNews(m: seq<Option<Var>>, i: nat)
    requires i < |m|
    ensures m[i].Some? ==> !News(m[i].value, i, [])
  {
  }

  lemma ChangedIndex(from: Var, i: nat)
    ensures Changed(from, i) ==> from.index == i
    ensures from.index == i ==> (Changed(from, i) <==> Changed(from, from.index))
  {
  }

  lemma AlikeSelf(v: Var)
    ensures Alike(v, v)
  {
  }

  lemma AlikeLaws(u: Var, v: Var, w: Var)
    requires Alike(u, v)
    ensures Alike(v, u) && (Alike(v, w) <==> Alike(u, w))
  {
  }

  lemma HoldsIsAlike(slot: Option<Var>, from: Var, now: Stamp)
    requires HoldsAt(slot, from, now)
    ensures slot.Some? && Alike(slot.value, from)
  {
  }

  lemma HoldsAlike(slot: Option<Var>, a: Var, b: Var, now: Stamp)
    requires HoldsAt(slot, a, now) && Alike(a, b)
    ensures HoldsAt(slot, b, now)
  {
  }

  lemma PlayerSlot(v: Var, mid: Option<Var>, from: Var, rest: seq<Var>, froms: seq<Var>, i: nat, now: Stamp,
                   slot: Option<Var>)
    requires froms != [] && from == froms[0] && rest == froms[1..] && mid.Some?
    requires if !Changed(from, i) || Alike(v, from) then mid == Some(v) else HoldsAt(mid, from, now)
    requires if !News(mid.value, i, rest) then slot == mid
             else HoldsAt(slot, LastChange(mid.value, i, rest, |rest|), now)
    ensures if !News(v, i, froms) then slot == Some(v)
            else HoldsAt(slot, LastChange(v, i, froms, |froms|), now)
  {
    hide Changed, Alike, HoldsAt, News, LastChange;
    AlikeSelf(v);
    NewsFrom(v, v, i, froms);
    LastFrom(v, i, froms, |froms|);
    if Changed(from, i) {
      if Alike(v, from) {
        AlikeLast(v, from, i, rest, |rest|);
        if News(v, i, rest) {
          HoldsAlike(slot, LastChange(v, i, rest, |rest|), LastChange(from, i, rest, |rest|), now);
        }
      } else {
        HoldsIsAlike(mid, from, now);
        AlikeLast(mid.value, from, i, rest, |rest|);
        if News(mid.value, i, rest) {
          HoldsAlike(slot, LastChange(mid.value, i, rest, |rest|), LastChange(from, i, rest, |rest|), now);
        } else {
          NoNewsLast(mid.value, i, rest, |rest|);
          AlikeLaws(mid.value, from, LastChange(from, i, rest, |rest|));
          AlikeLaws(LastChange(mid.value, i, rest, |rest|), LastChange(from, i, rest, |rest|), mid.value);
          AlikeLaws(mid.value, LastChange(mid.value, i, rest, |rest|), from);
          HoldsAlike(slot, from, LastChange(from, i, rest, |rest|), now);
        }
      }
    }
  }

  lemma {:induction false} NoNewsLast(v: Var, i: nat, froms: seq<Var>, n: nat)
    requires n <= |froms| && !News(v, i, froms)
    ensures Alike(v, LastChange(v, i, froms, n))
  {
    if n > 0 {
      NoNewsLast(v, i, froms, n - 1);
    }
  }

  /** What is left for forwarding: exactly the entries that are marked as changed and differ from the
      last before them for their slot, or from what the slot held; and all for empty slots. */
  lemma {:induction false} PlayerForwards(m: seq<Option<Var>>, froms: seq<Var>, now: Stamp, j: nat)
    requires InRange(froms, |m|) && j < |froms|
    ensures
      var i, left := froms[j].index, MergeAll(m, froms, OfPlayer(now)).1[j];
      left == if Changed(froms[j], i) && (m[i].None? || !Alike(LastChange(m[i].value, i, froms, j), froms[j]))
              then Some(froms[j]) else None
    decreases froms
  {
    hide MergeOne, Changed, Alike, HoldsAt;
    var from, rest, i := froms[0], froms[1..], froms[j].index;
    var (to, left) := MergeOne(m[from.index], from, OfPlayer(now));
    var m' := m[from.index := to];
    PlayerOne(m[from.index], from, now);
    if j > 0 {
      PlayerForwards(m', rest, now, j - 1);
      assert rest[j - 1] == froms[j];
      ChangedIndex(from, i);
      if m[i].Some? {
        var v := if Changed(from, i) then from else m[i].value;
        LastFrom(m[i].value, i, froms, j);
        SlotAlike(m[i].value, m'[i], from, i, now);
        AlikeLast(m'[i].value, v, i, rest, j - 1);
        AlikeLaws(LastChange(m'[i].value, i, rest, j - 1), LastChange(v, i, rest, j - 1), froms[j]);
      }
    }
  }

  lemma SlotAlike(v: Var, mid: Option<Var>, from: Var, i: nat, now: Stamp)
    requires if !Changed(from, i) || Alike(v, from) then mid == Some(v) else HoldsAt(mid, from, now)
    ensures mid.Some? && Alike(mid.value, if Changed(from, i) then from else v)
  {
  }

  // ---------- The other ways ----------

  predicate Sooner(a: Stamp, b: Stamp) { a.sec < b.sec || (a.sec == b.sec && a.usec < b.usec) }

  /** One entry from the global vault: a time is not replaced by an earlier one or none. */
  lemma GlobalOneHolds(to: Option<Var>, from: Var, now: Stamp)
    ensures
      var (slot, left) := MergeOne(to, from, Mode(true, true, false, now));
      if !Changed(from, from.index) then slot == to && left.None?
      else if to.None? then slot.None? && left == Some(from)
      else if HasBit(to.value.flags, 4) && (!HasBit(from.flags, 4) || Sooner(from.stamp, to.value.stamp)) then
        slot == to && left.None?
      else HoldsAt(slot, from, now) && left == Some(from)
  {
    WithTime(from.flags);
  }

  /** One entry of a saved state, when its age is loaded. */
  lemma AgeOneHolds(to: Option<Var>, from: Var, now: Stamp)
    ensures
      var (slot, left) := MergeOne(to, from, Mode(false, true, true, now));
      if !Changed(from, from.index) then slot == to && left == Some(from)
      else if to.None? then left.None? && if HasBit(from.flags, 4) then slot == Some(from) else HoldsAt(slot, from, now)
      else if !HasBit(from.flags, 4) then
        && left == Some(from)
        && if !HasBit(to.value.flags, 8) && !HasBit(to.value.flags, 4) then HoldsAt(slot, to.value, now) else slot == to
      else if HasBit(to.value.flags, 4) && Sooner(from.stamp, to.value.stamp) then slot == to && left == Some(from)
      else slot == Some(from) && left.None?
  {
    WithTime(from.flags);
    if to.Some? {
      WithTime(to.value.flags);
    }
  }

  predicate TimedChange(from: Var, i: nat) { Changed(from, i) && HasBit(from.flags, 4) }

  lemma AgeTimedOne(v: Var, from: Var, i: nat, now: Stamp)
    requires from.index == i && HasBit(v.flags, 4)
    ensures MergeOne(Some(v), from, Mode(false, true, true, now)).0
            == Some(if TimedChange(from, i) && !Sooner(from.stamp, v.stamp) then from else v)
  {
    AgeOneHolds(Some(v), from, now);
  }

  /** No entry with a time is later than what the slot has. */
  predicate Latest(v: Var, i: nat, froms: seq<Var>) {
    forall k | 0 <= k < |froms| && TimedChange(froms[k], i) :: Sooner(froms[k].stamp, v.stamp)
  }

  /** The j-th entry has a time as late as any, and the last such. */
  predicate Wins(v: Var, i: nat, froms: seq<Var>, j: nat) {
    && j < |froms| && TimedChange(froms[j], i) && !Sooner(froms[j].stamp, v.stamp)
    && (forall k | 0 <= k < j && TimedChange(froms[k], i) :: !Sooner(froms[j].stamp, froms[k].stamp))
    && (forall k | j < k < |froms| && TimedChange(froms[k], i) :: Sooner(froms[k].stamp, froms[j].stamp))
  }

  /** What a slot that had a time holds after an age is loaded: the value with the latest time, and of
      several the last; so it is as it was exactly if all that came was earlier. */
  lemma {:induction false} AgeHolds(m: seq<Option<Var>>, froms: seq<Var>, now: Stamp, i: nat)
    requires InRange(froms, |m|) && i < |m| && m[i].Some? && HasBit(m[i].value.flags, 4)
    ensures
      var slot := MergeAll(m, froms, Mode(false, true, true, now)).0[i];
      if Latest(m[i].value, i, froms) then slot == m[i]
      else exists j: nat :: j < |froms| && Wins(m[i].value, i, froms, j) && slot == Some(froms[j])
    decreases froms
  {
    hide MergeOne, TimedChange, Latest, Wins;
    if froms == [] {
      NothingLater(m[i].value, i);
    } else {
      var from, rest, v := froms[0], froms[1..], m[i].value;
      var m' := m[from.index := MergeOne(m[from.index], from, Mode(false, true, true, now)).0];
      var w := if TimedChange(from, i) && !Sooner(from.stamp, v.stamp) then from else v;
      TimedIndex(from, i);
      if from.index == i {
        AgeTimedOne(v, from, i, now);
      }
      assert m'[i] == Some(w);
      AgeHolds(m', rest, now, i);
      LatestFrom(v, w, i, froms);
      if !Latest(w, i, rest) {
        var j: nat :|
          j < |rest| && Wins(w, i, rest, j)
          && MergeAll(m', rest, Mode(false, true, true, now)).0[i] == Some(rest[j]);
        WinsFrom(v, w, i, froms, j);
        assert froms[j + 1] == rest[j];
      } else if TimedChange(from, i) && !Sooner(from.stamp, v.stamp) {
        FirstWins(v, i, froms);
      }
    }
  }

  lemma NothingLater(v: Var, i: nat)
    ensures Latest(v, i, [])
  {
  }

  lemma TimedIndex(from: Var, i: nat)
    ensures TimedChange(from, i) ==> from.index == i && HasBit(from.flags, 4)
  {
  }

  lemma LatestFrom(v: Var, w: Var, i: nat, froms: seq<Var>)
    requires froms != [] && w == if TimedChange(froms[0], i) && !Sooner(froms[0].stamp, v.stamp) then froms[0] else v
    ensures Latest(v, i, froms) ==> w == v && Latest(w, i, froms[1..])
    ensures !Latest(v, i, froms) && w == v ==> !Latest(v, i, froms[1..]) || (TimedChange(froms[0], i) && v == froms[0])
  {
    hide TimedChange;
    if !Latest(v, i, froms) && w == v && Latest(v, i, froms[1..]) {
      var k :| 0 <= k < |froms| && TimedChange(froms[k], i) && !Sooner(froms[k].stamp, v.stamp);
      assert k > 0 ==> froms[1..][k - 1] == froms[k];
    }
  }

  lemma WinsFrom(v: Var, w: Var, i: nat, froms: seq<Var>, j: nat)
    requires froms != [] && w == if TimedChange(froms[0], i) && !Sooner(froms[0].stamp, v.stamp) then froms[0] else v
    requires Wins(w, i, froms[1..], j)
    ensures Wins(v, i, froms, j + 1) && !Latest(v, i, froms)
  {
    hide TimedChange;
    var rest := froms[1..];
    assert froms[j + 1] == rest[j];
    forall k | j + 1 < k < |froms| && TimedChange(froms[k], i) ensures Sooner(froms[k].stamp, froms[j + 1].stamp) {
      assert rest[k - 1] == froms[k];
    }
    forall k | 0 <= k < j + 1 && TimedChange(froms[k], i) ensures !Sooner(froms[j + 1].stamp, froms[k].stamp) {
      assert k > 0 ==> rest[k - 1] == froms[k];
    }
  }

  lemma FirstWins(v: Var, i: nat, froms: seq<Var>)
    requires froms != [] && TimedChange(froms[0], i) && !Sooner(froms[0].stamp, v.stamp)
    requires Latest(froms[0], i, froms[1..])
    ensures Wins(v, i, froms, 0) && !Latest(v, i, froms)
  {
    hide TimedChange;
    forall k | 0 < k < |froms| && TimedChange(froms[k], i) ensures Sooner(froms[k].stamp, froms[0].stamp) {
      assert froms[1..][k - 1] == froms[k];
    }
  }

  /** One entry from a client: it is taken if it is marked as changed. */
  lemma ClientOne(to: Option<Var>, from: Var, global: bool, now: Stamp)
    ensures
      var (slot, left) := MergeOne(to, from, Mode(false, global, false, now));
      if Changed(from, from.index) then HoldsAt(slot, from, now) && left.None? else slot == to && left == Some(from)
  {
    WithTime(from.flags);
  }

  // ---------- Arrays ----------

  /** The array a variable has after it was assigned another: a new one where values came and the old one
      was given up or missing, none where only a default came that has more values than the variable had,
      and else the one it had. */
  lemma RoomAfter(to: Var, room: Option<nat>, from: Var)
    ensures
      Assigned(to, room, from).0 ==
        if !HasBit(from.flags, 8) then (if !HasBit(to.flags, 8) || room.None? then Some(from.count) else room)
        else if !HasBit(to.flags, 8) && to.count < from.count then None
        else room
  {
  }

  /** A client's variable brings its own array along; a vault's is copied into one, if it is kept. */
  lemma RoomOfOne(to: Option<Var>, room: Option<nat>, from: Var, global: bool, now: Stamp)
    ensures
      MergeRoom(to, room, from, Mode(false, global, false, now)) ==
        if !Changed(from, from.index) then (room, true)
        else (if HasBit(from.flags, 8) then None else Some(from.count), true)
    ensures
      MergeRoom(to, room, from, OfPlayer(now)) ==
        if to.Some? && Changed(from, from.index) && !Alike(to.value, from) then Assigned(to.value, room, from)
        else (room, true)
  {
    hide Assigned, Alike, Changed, Adopted;
    PlayerOne(to, from, now);
    ClientOne(to, from, global, now);
    ChangedBit(from);
  }

  lemma ChangedBit(from: Var)
    ensures Changed(from, from.index) <==> HasDirtyFlag(from.flags)
  {
  }
}

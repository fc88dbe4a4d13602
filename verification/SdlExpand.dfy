/** expand: bring a parsed state's entries into the slots their indices name and fill the other
    slots with defaults, in place, from the top down. */
module SdlExpand {
  import opened Wire
  import opened SdlModel

  const SAME_AS_DEFAULT: Byte := 0x08

  function Default<T>(index: nat): Entry<T> { Entry(index, SAME_AS_DEFAULT, NoStamp, 0, []) }

  ghost function Indices<T>(slots: seq<Option<Entry<T>>>): set<nat> {
    set c | 0 <= c < |slots| && slots[c].Some? :: slots[c].value.index
  }

  ghost predicate IndicesBelow<T>(slots: seq<Option<Entry<T>>>, n: nat) {
    forall c | 0 <= c < |slots| && slots[c].Some? :: slots[c].value.index < n
  }

  /** Every entry sits in the slot of its index and all other slots hold defaults. */
  ghost predicate Normal<T>(slots: seq<Option<Entry<T>>>, out: seq<Option<Entry<T>>>, n: nat) {
    && |out| == n
    && (forall c | 0 <= c < |slots| && slots[c].Some? :: slots[c].value.index < n
         && out[slots[c].value.index] == slots[c])
    && forall i | 0 <= i < n && i !in Indices(slots) :: out[i] == Some(Default(i))
  }

  /** Indices go up, and no entry would have to move down. */
  ghost predicate Aligned<T>(slots: seq<Option<Entry<T>>>) {
    && (forall c | 0 <= c < |slots| && slots[c].Some? :: c <= slots[c].value.index)
    && forall b, c | 0 <= b < c < |slots| && slots[b].Some? && slots[c].Some? ::
         slots[b].value.index < slots[c].value.index
  }

  /** The entries above cur are settled: each went up or stayed, and they are in order. */
  ghost predicate Settled<T>(slots: seq<Option<Entry<T>>>, m: seq<Option<Entry<T>>>, cur: int, fill: int)
    requires -1 <= cur
  {
    && (forall c | cur < c < |slots| && slots[c].Some? ::
          var i := slots[c].value.index; c <= i && fill < i < |m| && m[i] == slots[c])
    && forall b, c | cur < b < c < |slots| && slots[b].Some? && slots[c].Some? ::
         slots[b].value.index < slots[c].value.index
  }

  /** Slots above fill are occupied, those down to cur are empty, and the rest is untouched. */
  ghost predicate Clean<T>(slots: seq<Option<Entry<T>>>, m: seq<Option<Entry<T>>>, cur: int, fill: int)
    requires |slots| <= |m| && -1 <= cur < |slots| && -1 <= fill < |m|
  {
    && (forall i | 0 <= i <= cur && i <= fill :: m[i] == slots[i])
    && (forall i | cur < i <= fill :: m[i].None?)
    && (forall i | fill < i < |m| :: m[i].Some?)
    && (cur > fill ==> m[cur] == slots[cur] && slots[cur].value.index != cur)
  }

  /** What an aligned input has achieved when fill is reached. */
  ghost predicate OnCourse<T>(slots: seq<Option<Entry<T>>>, m: seq<Option<Entry<T>>>, cur: int, fill: int)
    requires |slots| <= |m| && -1 <= cur < |slots| && -1 <= fill < |m|
  {
    && (forall c | 0 <= c <= cur && slots[c].Some? :: slots[c].value.index <= fill)
    && forall i | fill < i < |m| && i !in Indices(slots) :: m[i] == Some(Default(i))
  }

  /** The loop invariant.  A hole is a slot that stays empty: an entry has left it that the
      downward pass will not come back to. */
  ghost predicate Going<T>(slots: seq<Option<Entry<T>>>, m: seq<Option<Entry<T>>>, cur: int, fill: int, hole: int) {
    && |slots| <= |m| && -1 <= cur < |slots| && -1 <= fill < |m| && IndicesBelow(slots, |m|)
    && if hole >= 0 then fill < hole < |m| && m[hole].None? && !Aligned(slots)
       else
         && Clean(slots, m, cur, fill) && Settled(slots, m, cur, fill)
         && (Aligned(slots) ==> OnCourse(slots, m, cur, fill))
  }

  lemma SkipKeeps<T>(slots: seq<Option<Entry<T>>>, m: seq<Option<Entry<T>>>, cur: int, fill: int, hole: int)
    requires Going(slots, m, cur, fill, hole) && cur >= 0 && m[cur].None?
    ensures Going(slots, m, cur - 1, fill, hole)
  {
  }

  function Filled<T>(m: seq<Option<Entry<T>>>, fill: nat): seq<Option<Entry<T>>>
    requires fill < |m|
  {
    if m[fill].None? then m[fill := Some(Default(fill))] else m
  }

  lemma MissKeeps<T>(slots: seq<Option<Entry<T>>>, m: seq<Option<Entry<T>>>, cur: int, fill: nat, hole: int)
    requires Going(slots, m, cur, fill, hole)
    requires cur >= 0 ==> m[cur].Some? && m[cur].value.index != fill
    ensures Going(slots, Filled(m, fill), cur, fill - 1, hole)
  {
    var m' := Filled(m, fill);
    if hole < 0 {
      assert Clean(slots, m', cur, fill - 1);
      assert Settled(slots, m', cur, fill - 1);
      if Aligned(slots) {
        assert fill !in Indices(slots);
        assert OnCourse(slots, m', cur, fill - 1);
      }
    }
  }

  function Moved<T>(m: seq<Option<Entry<T>>>, cur: nat, fill: nat): seq<Option<Entry<T>>>
    requires cur < |m| && fill < |m|
  {
    if fill != cur then m[fill := m[cur]][cur := None] else m
  }

  lemma MatchClean<T>(slots: seq<Option<Entry<T>>>, m: seq<Option<Entry<T>>>, cur: nat, fill: nat)
    requires |slots| <= |m| && cur < |slots| && cur <= fill < |m|
    requires Clean(slots, m, cur, fill) && m[cur].Some?
    ensures Clean(slots, Moved(m, cur, fill), cur - 1, fill - 1)
  {
  }

  lemma MatchSettled<T>(slots: seq<Option<Entry<T>>>, m: seq<Option<Entry<T>>>, cur: nat, fill: nat)
    requires |slots| <= |m| && cur < |slots| && cur <= fill < |m|
    requires m[cur] == slots[cur] && slots[cur].Some? && slots[cur].value.index == fill
    requires Settled(slots, m, cur, fill)
    ensures Settled(slots, Moved(m, cur, fill), cur - 1, fill - 1)
  {
  }

  lemma MatchOnCourse<T>(slots: seq<Option<Entry<T>>>, m: seq<Option<Entry<T>>>, cur: nat, fill: nat)
    requires |slots| <= |m| && cur < |slots| && cur <= fill < |m| && Aligned(slots)
    requires m[cur] == slots[cur] && slots[cur].Some? && slots[cur].value.index == fill
    requires OnCourse(slots, m, cur, fill)
    ensures OnCourse(slots, Moved(m, cur, fill), cur - 1, fill - 1)
  {
    assert fill in Indices(slots);
  }

  lemma MatchKeeps<T>(slots: seq<Option<Entry<T>>>, m: seq<Option<Entry<T>>>, cur: nat, fill: nat, hole: int)
    requires Going(slots, m, cur, fill, hole) && m[cur].Some? && m[cur].value.index == fill
    ensures Going(slots, Filled(Moved(m, cur, fill), fill), cur - 1, fill - 1,
                  if hole < 0 && fill < cur then cur else hole)
  {
    if hole < 0 {
      assert m[cur] == slots[cur];
      if fill < cur {
        assert !Aligned(slots);
      } else {
        hide Clean, Settled, OnCourse, Aligned;
        MatchClean(slots, m, cur, fill);
        MatchSettled(slots, m, cur, fill);
        if Aligned(slots) {
          MatchOnCourse(slots, m, cur, fill);
        }
      }
    }
  }

  function Spread<T>(slots: seq<Option<Entry<T>>>, n: nat): (m: seq<Option<Entry<T>>>)
    requires |slots| <= n
    ensures |m| == n
  {
    slots + seq(n - |slots|, _ => None)
  }

  function SkipNulls<T>(m: seq<Option<Entry<T>>>, cur: int): (c: int)
    requires -1 <= cur < |m|
    ensures -1 <= c <= cur && (c >= 0 ==> m[c].Some?)
  {
    if cur >= 0 && m[cur].None? then SkipNulls(m, cur - 1) else cur
  }

  /** The downward pass: an entry moves up if it meets its slot; the rest waits below. */
  function Descend<T>(m: seq<Option<Entry<T>>>, cur: int, fill: int): (r: (seq<Option<Entry<T>>>, int))
    requires -1 <= cur < |m| && -1 <= fill < |m|
    ensures |r.0| == |m| && -1 <= r.1 <= cur
    decreases fill + 1
  {
    if fill < 0 then (m, cur)
    else
      var c := SkipNulls(m, cur);
      if c >= 0 && m[c].value.index == fill then Descend(Filled(Moved(m, c, fill), fill), c - 1, fill - 1)
      else Descend(Filled(m, fill), c, fill - 1)
  }

  function PutHome<T>(m: seq<Option<Entry<T>>>, cur: nat): seq<Option<Entry<T>>>
    requires cur < |m|
  {
    if m[cur].None? || m[cur].value.index == cur then m
    else
      var home := m[cur].value.index;
      if home < |m| && m[home].Some? then m[home := m[cur]][cur := None] else m
  }

  /** The second loop takes what the pass did not get to. */
  function Cleanup<T>(m: seq<Option<Entry<T>>>, cur: int): (r: seq<Option<Entry<T>>>)
    requires -1 <= cur < |m|
    ensures |r| == |m|
    decreases cur + 1
  {
    if cur < 0 then m else Cleanup(PutHome(m, cur), cur - 1)
  }

  function VarsExpanded<T>(slots: seq<Option<Entry<T>>>, n: nat): (m: seq<Option<Entry<T>>>)
    requires |slots| < n
    ensures |m| == n
  {
    var (m, cur) := Descend(Spread(slots, n), |slots| - 1, n - 1);
    Cleanup(m, cur)
  }

  lemma PassSkips<T>(m: seq<Option<Entry<T>>>, cur: nat, fill: int)
    requires cur < |m| && 0 <= fill < |m| && m[cur].None?
    ensures Descend(m, cur, fill) == Descend(m, cur - 1, fill)
  {
  }

  lemma PassSteps<T>(m: seq<Option<Entry<T>>>, cur: int, fill: nat)
    requires -1 <= cur < |m| && fill < |m| && (cur >= 0 ==> m[cur].Some?)
    ensures
      Descend(m, cur, fill) ==
      if cur >= 0 && m[cur].value.index == fill then Descend(Filled(Moved(m, cur, fill), fill), cur - 1, fill - 1)
      else Descend(Filled(m, fill), cur, fill - 1)
  {
  }

  lemma CleanupSteps<T>(m: seq<Option<Entry<T>>>, cur: nat)
    requires cur < |m|
    ensures Cleanup(m, cur) == Cleanup(PutHome(m, cur), cur - 1)
  {
  }

  lemma PassEnds<T>(m: seq<Option<Entry<T>>>, cur: int)
    requires -1 <= cur < |m|
    ensures Descend(m, cur, -1) == (m, cur) && Cleanup(m, -1) == m
  {
  }

  /** The variable half of expand normalises exactly the aligned inputs, and leaves empty slots in
      all others. */
  method ExpandVars<T>(slots: seq<Option<Entry<T>>>, n: nat) returns (m: seq<Option<Entry<T>>>)
    requires |slots| < n && IndicesBelow(slots, n)
    ensures m == VarsExpanded(slots, n)
    ensures Normal(slots, m, n) <==> Aligned(slots)
    ensures (forall i | 0 <= i < n :: m[i].Some?) <==> Aligned(slots)
  {
    hide Going, Normal, Aligned, Final, Descend, Cleanup;
    var cur := |slots| - 1;
    m := slots + seq(n - |slots|, _ => None);
    var maxfill := n - 1;
    var fill := maxfill;
    ghost var hole := -1;
    Starts(slots, m);
    while fill >= 0
      invariant |m| == n && -1 <= cur < |slots| && -1 <= fill < n && Going(slots, m, cur, fill, hole)
      invariant Descend(m, cur, fill) == Descend(Spread(slots, n), |slots| - 1, n - 1)
    {
      while cur >= 0 && m[cur].None?
        invariant -1 <= cur < |slots| && Going(slots, m, cur, fill, hole)
        invariant Descend(m, cur, fill) == Descend(Spread(slots, n), |slots| - 1, n - 1)
      {
        PassSkips(m, cur, fill);
        SkipKeeps(slots, m, cur, fill, hole);
        cur := cur - 1;
      }
      PassSteps(m, cur, fill);
      if cur >= 0 && m[cur].value.index == fill {
        MatchKeeps(slots, m, cur, fill, hole);
        hole := if hole < 0 && fill < cur then cur else hole;
        if fill != cur {
          m := m[fill := m[cur]][cur := None];
        }
        cur := cur - 1;
      } else {
        MissKeeps(slots, m, cur, fill, hole);
      }
      if m[fill].None? {
        m := m[fill := Some(Default(fill))];
      }
      fill := fill - 1;
    }
    Stands(slots, m, cur, hole);
    PassEnds(m, cur);
    while cur >= 0
      invariant |m| == n && -1 <= cur < |slots| && Final(slots, m, cur, hole)
      invariant Cleanup(m, cur) == VarsExpanded(slots, n)
    {
      CleanupKeeps(slots, m, cur, hole);
      CleanupSteps(m, cur);
      if m[cur].Some? {
        fill := m[cur].value.index;
        if fill != cur && fill <= maxfill && m[fill].Some? {
          m := m[fill := m[cur]];
          m := m[cur := None];
          hole := if hole < 0 then cur else hole;
        }
      }
      cur := cur - 1;
    }
    PassEnds(m, cur);
    Ends(slots, m, hole);
  }

  lemma Starts<T>(slots: seq<Option<Entry<T>>>, m: seq<Option<Entry<T>>>)
    requires |slots| < |m| && IndicesBelow(slots, |m|) && m == slots + seq(|m| - |slots|, _ => None)
    ensures Going(slots, m, |slots| - 1, |m| - 1, -1)
  {
    forall i | |slots| <= i < |m| ensures m[i].None? {
      assert m[i] == seq(|m| - |slots|, _ => None)[i - |slots|];
    }
  }

  /** During the last loop: an unaligned input has its hole, or gets it in the next step. */
  ghost predicate Final<T>(slots: seq<Option<Entry<T>>>, m: seq<Option<Entry<T>>>, cur: int, hole: int) {
    if hole >= 0 then hole < |m| && m[hole].None? && !Aligned(slots)
    else if cur >= 0 then
      cur < |m| && m[cur].Some? && m[cur].value.index != cur && m[cur].value.index < |m|
      && m[m[cur].value.index].Some? && !Aligned(slots)
    else Normal(slots, m, |m|) && Aligned(slots)
  }

  lemma Stands<T>(slots: seq<Option<Entry<T>>>, m: seq<Option<Entry<T>>>, cur: int, hole: int)
    requires Going(slots, m, cur, -1, hole)
    ensures Final(slots, m, cur, hole)
  {
  }

  lemma CleanupKeeps<T>(slots: seq<Option<Entry<T>>>, m: seq<Option<Entry<T>>>, cur: nat, hole: int)
    requires Final(slots, m, cur, hole) && cur < |m|
    ensures
      var fill := if m[cur].Some? then m[cur].value.index else cur;
      if fill != cur && fill < |m| && m[fill].Some? then
        Final(slots, m[fill := m[cur]][cur := None], cur - 1, if hole < 0 then cur else hole)
      else Final(slots, m, cur - 1, hole)
  {
  }

  lemma Ends<T>(slots: seq<Option<Entry<T>>>, m: seq<Option<Entry<T>>>, hole: int)
    requires Final(slots, m, -1, hole)
    ensures Normal(slots, m, |m|) <==> Aligned(slots)
    ensures (forall i | 0 <= i < |m| :: m[i].Some?) <==> Aligned(slots)
  {
    if hole < 0 {
      forall i | 0 <= i < |m| ensures m[i].Some? {
        if i in Indices(slots) {
          var c :| 0 <= c < |slots| && slots[c].Some? && slots[c].value.index == i;
        }
      }
    }
  }

  /** The smallest input with an entry that would have to move down: of three, the entry for slot 1
      is lost and the slot stays empty. */
  lemma EmptySlotIsReached<T>(a: Entry<T>, b: Entry<T>)
    requires a.index == 1 && b.index == 0
    ensures VarsExpanded([Some(a), Some(b)], 3) == [Some(b), None, Some(Default(2))]
  {
    hide Descend, Cleanup;
    var m0 := Spread([Some(a), Some(b)], 3);
    assert m0 == [Some(a), Some(b), None];
    var m1, m2 := m0[2 := Some(Default(2))], [Some(b), None, Some(Default(2))];
    PassSteps(m0, 1, 2);
    PassSteps(m1, 1, 1);
    PassSteps(m1, 1, 0);
    assert Filled(Moved(m1, 1, 0), 0) == m2;
    PassEnds(m2, 0);
    CleanupSteps(m2, 0);
  }

  // ---------- The struct half ----------

  /** How many entries there are above position c. */
  function Above<T>(slots: seq<Option<Entry<T>>>, c: int): (k: nat)
    requires -1 <= c < |slots|
    ensures k < |slots| - c
    decreases |slots| - c
  {
    if c == |slots| - 1 then 0 else (if slots[c + 1].Some? then 1 else 0) + Above(slots, c + 1)
  }

  lemma {:induction false} AboveFalls<T>(slots: seq<Option<Entry<T>>>, b: int, c: nat)
    requires -1 <= b < c < |slots| && slots[c].Some?
    ensures Above(slots, b) > Above(slots, c)
    decreases c - b
  {
    if b + 1 < c {
      AboveFalls(slots, b + 1, c);
    }
  }

  /** The struct half compares the k-th entry from the top with the k-th slot from the top and
      with no other: unlike the variable half it goes down one entry for every slot. */
  function Chance<T>(slots: seq<Option<Entry<T>>>, n: nat, c: nat): int
    requires c < |slots|
  {
    n - 1 - Above(slots, c)
  }

  predicate Hits<T>(slots: seq<Option<Entry<T>>>, n: nat, c: nat, i: nat)
    requires c < |slots|
  {
    slots[c].Some? && Chance(slots, n, c) == i && slots[c].value.index == i
  }

  /** What an entry that does not hit leaves where it stood, or a default in an empty slot. */
  function Remains<T>(slots: seq<Option<Entry<T>>>, n: nat, i: nat): Option<Entry<T>> {
    if i < |slots| && slots[i].Some? && slots[i].value.index != Chance(slots, n, i) then slots[i] else None
  }

  ghost predicate SlotIs<T>(slots: seq<Option<Entry<T>>>, n: nat, i: nat, slot: Option<Entry<T>>) {
    if exists c: nat :: c < |slots| && Hits(slots, n, c, i) then
      forall c: nat | c < |slots| && Hits(slots, n, c, i) :: slot == slots[c]
    else slot == if Remains(slots, n, i).Some? then Remains(slots, n, i) else Some(Default(i))
  }

  lemma Decides<T>(slots: seq<Option<Entry<T>>>, n: nat, cur: int, fill: nat)
    requires -1 <= cur < |slots| < n && fill < n
    requires cur >= 0 ==> slots[cur].Some? && Chance(slots, n, cur) == fill
    requires forall c | cur < c < |slots| && slots[c].Some? :: fill < Chance(slots, n, c)
    ensures SlotIs(slots, n, fill,
      if cur >= 0 && slots[cur].value.index == fill then slots[cur]
      else if Remains(slots, n, fill).Some? then Remains(slots, n, fill) else Some(Default(fill)))
  {
    forall c: nat | c < |slots| && Hits(slots, n, c, fill) ensures c == cur {
      if c < cur {
        AboveFalls(slots, c, cur);
      }
    }
    if cur >= 0 && slots[cur].value.index == fill {
      assert Hits(slots, n, cur, fill);
    }
  }

  /** The struct loop's invariant: slots above fill are decided, and while entries are left, the
      one looked at is as far from the top as the slot is. */
  ghost predicate Descended<T>(slots: seq<Option<Entry<T>>>, n: nat, m: seq<Option<Entry<T>>>, cur: int, fill: int) {
    && |slots| < n == |m| && -1 <= fill < n && -1 <= cur < |slots|
    && (cur >= 0 ==> Chance(slots, n, cur) == fill)
    && (forall c | cur < c < |slots| && slots[c].Some? :: fill < Chance(slots, n, c))
    && (forall i | fill < i < n :: SlotIs(slots, n, i, m[i]))
    && (forall i | 0 <= i <= fill :: m[i] == if i <= cur then slots[i] else Remains(slots, n, i))
  }

  lemma DescentSkips<T>(slots: seq<Option<Entry<T>>>, n: nat, m: seq<Option<Entry<T>>>, cur: nat, fill: int)
    requires Descended(slots, n, m, cur, fill) && cur < n && m[cur].None? && fill >= 0
    ensures Descended(slots, n, m, cur - 1, fill)
  {
  }

  lemma DescentSteps<T>(slots: seq<Option<Entry<T>>>, n: nat, m: seq<Option<Entry<T>>>, cur: int, fill: nat)
    requires Descended(slots, n, m, cur, fill) && (cur >= 0 ==> m[cur].Some?)
    ensures
      var m' := if cur >= 0 && m[cur].value.index == fill then Moved(m, cur, fill) else m;
      Descended(slots, n, Filled(m', fill), if cur >= 0 then cur - 1 else cur, fill - 1)
  {
    hide SlotIs;
    Decides(slots, n, cur, fill);
  }

  lemma DescentStarts<T>(slots: seq<Option<Entry<T>>>, n: nat, m: seq<Option<Entry<T>>>)
    requires |slots| < n && m == slots + seq(n - |slots|, _ => None)
    ensures Descended(slots, n, m, |slots| - 1, n - 1)
  {
    forall i | |slots| <= i < n ensures m[i].None? {
      assert m[i] == seq(n - |slots|, _ => None)[i - |slots|];
    }
  }

  lemma DescentEnds<T>(slots: seq<Option<Entry<T>>>, n: nat, m: seq<Option<Entry<T>>>, cur: int)
    requires Descended(slots, n, m, cur, -1)
    ensures forall i | 0 <= i < n :: SlotIs(slots, n, i, m[i])
  {
    hide SlotIs;
  }

  method ExpandStructs<T>(slots: seq<Option<Entry<T>>>, n: nat) returns (m: seq<Option<Entry<T>>>)
    requires |slots| < n
    ensures |m| == n && forall i | 0 <= i < n :: SlotIs(slots, n, i, m[i])
  {
    hide Descended;
    var cur := |slots| - 1;
    m := slots + seq(n - |slots|, _ => None);
    DescentStarts(slots, n, m);
    var maxfill := n - 1;
    var fill := maxfill;
    while fill >= 0
      invariant |m| == n && -1 <= fill < n && -1 <= cur < |slots| && Descended(slots, n, m, cur, fill)
    {
      while cur >= 0 && m[cur].None?
        invariant -1 <= cur < |slots| && Descended(slots, n, m, cur, fill)
      {
        DescentSkips(slots, n, m, cur, fill);
        cur := cur - 1;
      }
      DescentSteps(slots, n, m, cur, fill);
      if cur >= 0 {
        if m[cur].value.index == fill {
          if fill != cur {
            m := m[fill := m[cur]][cur := None];
          }
        }
        cur := cur - 1;
      }
      if m[fill].None? {
        m := m[fill := Some(Default(fill))];
      }
      fill := fill - 1;
    }
    // no entry is left for the source's second loop: it has taken one step for every slot
    assert forall i | 0 <= i < n :: SlotIs(slots, n, i, m[i]) by {
      DescentEnds(slots, n, m, cur);
    }
  }

  /** Something else meets its slot where c still stands. */
  ghost predicate Overwritten<T>(slots: seq<Option<Entry<T>>>, n: nat, c: nat)
    requires c < |slots|
  {
    exists d: nat :: d < |slots| && Hits(slots, n, d, c)
  }

  /** The entry ends up where it belongs: it meets its slot, or is there and stays. */
  ghost predicate Kept<T>(slots: seq<Option<Entry<T>>>, n: nat, c: nat)
    requires c < |slots|
  {
    slots[c].Some? && var i := slots[c].value.index;
      i < n && (i == Chance(slots, n, c) || (i == c && !Overwritten(slots, n, c)))
  }

  ghost predicate Stray<T>(slots: seq<Option<Entry<T>>>, n: nat, c: nat)
    requires c < |slots|
  {
    slots[c].Some? && !Kept(slots, n, c) && !Overwritten(slots, n, c)
  }

  /** The entry is kept, or it is gone and what is in its slot is no different. */
  ghost predicate Fine<T>(slots: seq<Option<Entry<T>>>, n: nat, c: nat)
    requires c < |slots| && slots[c].Some?
  {
    Kept(slots, n, c) || (Gone(slots, n, c) && Equalled(slots, n, c))
  }

  ghost predicate Gone<T>(slots: seq<Option<Entry<T>>>, n: nat, c: nat)
    requires c < |slots| && slots[c].Some?
  {
    slots[c].value.index < n && Overwritten(slots, n, c)
  }

  ghost predicate Equalled<T>(slots: seq<Option<Entry<T>>>, n: nat, c: nat)
    requires c < |slots| && slots[c].Some?
  {
    || (exists b: nat :: b < |slots| && Kept(slots, n, b) && slots[b] == slots[c])
    || (slots[c].value == Default(slots[c].value.index)
        && forall b: nat | b < |slots| && Kept(slots, n, b) :: slots[b].value.index != slots[c].value.index)
  }

  ghost predicate Descents<T>(slots: seq<Option<Entry<T>>>, n: nat, m: seq<Option<Entry<T>>>) {
    |slots| < n == |m| && forall i | 0 <= i < n :: SlotIs(slots, n, i, m[i])
  }

  /** What is in slot i: a kept entry, one that does not belong there, or a default. */
  lemma SlotHas<T>(slots: seq<Option<Entry<T>>>, n: nat, m: seq<Option<Entry<T>>>, i: nat)
    requires Descents(slots, n, m) && i < n
    ensures
      || (exists b: nat :: b < |slots| && Kept(slots, n, b) && slots[b].value.index == i && m[i] == slots[b])
      || (i < |slots| && Stray(slots, n, i) && m[i] == slots[i])
      || m[i] == Some(Default(i))
  {
    assert SlotIs(slots, n, i, m[i]);
    if c: nat :| c < |slots| && Hits(slots, n, c, i) {
      assert Kept(slots, n, c);
    } else if Remains(slots, n, i).Some? {
      assert Stray(slots, n, i) || Kept(slots, n, i);
    }
  }

  lemma KeptIsThere<T>(slots: seq<Option<Entry<T>>>, n: nat, m: seq<Option<Entry<T>>>, c: nat)
    requires Descents(slots, n, m) && c < |slots| && Kept(slots, n, c)
    ensures m[slots[c].value.index] == slots[c]
  {
    var i := slots[c].value.index;
    assert SlotIs(slots, n, i, m[i]);
    if i == Chance(slots, n, c) {
      assert Hits(slots, n, c, i);
    }
  }

  lemma StrayStays<T>(slots: seq<Option<Entry<T>>>, n: nat, m: seq<Option<Entry<T>>>, c: nat)
    requires Descents(slots, n, m) && c < |slots| && Stray(slots, n, c)
    ensures m[c] == slots[c] && (slots[c].value.index < n ==> slots[c].value.index != c)
  {
    assert SlotIs(slots, n, c, m[c]);
  }

  lemma NormalIsFine<T>(slots: seq<Option<Entry<T>>>, n: nat, m: seq<Option<Entry<T>>>, c: nat)
    requires Descents(slots, n, m) && Normal(slots, m, n) && c < |slots| && slots[c].Some?
    ensures Fine(slots, n, c)
  {
    if !Kept(slots, n, c) {
      var i := slots[c].value.index;
      assert m[i] == slots[c];
      if !Overwritten(slots, n, c) {
        StrayStays(slots, n, m, c);
        assert false;
      }
      SlotHas(slots, n, m, i);
      if b: nat :| b < |slots| && Kept(slots, n, b) && slots[b].value.index == i {
        KeptIsThere(slots, n, m, b);
      }
    }
  }

  lemma FineIsThere<T>(slots: seq<Option<Entry<T>>>, n: nat, m: seq<Option<Entry<T>>>, c: nat)
    requires Descents(slots, n, m) && AllFine(slots, n) && c < |slots| && slots[c].Some?
    ensures slots[c].value.index < n && m[slots[c].value.index] == slots[c]
  {
    assert Fine(slots, n, c);
    if Kept(slots, n, c) {
      KeptIsThere(slots, n, m, c);
    } else if b: nat :| b < |slots| && Kept(slots, n, b) && slots[b] == slots[c] {
      KeptIsThere(slots, n, m, b);
    } else {
      SlotHas(slots, n, m, slots[c].value.index);
    }
  }

  ghost predicate AllFine<T>(slots: seq<Option<Entry<T>>>, n: nat) {
    forall c: nat | c < |slots| && slots[c].Some? :: Fine(slots, n, c)
  }

  /** For any input: every slot ends up as it should exactly when every entry is kept, or was
      overwritten and is no different from what is in its slot. */
  lemma StructsExact<T>(slots: seq<Option<Entry<T>>>, n: nat, m: seq<Option<Entry<T>>>)
    requires Descents(slots, n, m)
    ensures Normal(slots, m, n) <==> AllFine(slots, n)
  {
    if Normal(slots, m, n) {
      forall c: nat | c < |slots| && slots[c].Some? ensures Fine(slots, n, c) {
        NormalIsFine(slots, n, m, c);
      }
    } else if AllFine(slots, n) {
      forall c: nat | c < |slots| && slots[c].Some?
        ensures slots[c].value.index < n && m[slots[c].value.index] == slots[c]
      {
        FineIsThere(slots, n, m, c);
      }
      forall i: nat | i < n && i !in Indices(slots) ensures m[i] == Some(Default(i)) {
        SlotHas(slots, n, m, i);
      }
    }
  }

  predicate InPlace<T>(slots: seq<Option<Entry<T>>>, n: nat, c: nat)
    requires c < |slots| && slots[c].Some?
  {
    slots[c].value.index == c || slots[c].value.index == Chance(slots, n, c)
  }

  ghost predicate NoneDefault<T>(slots: seq<Option<Entry<T>>>) {
    forall c | 0 <= c < |slots| && slots[c].Some? :: slots[c].value != Default(slots[c].value.index)
  }

  ghost predicate Distinct<T>(slots: seq<Option<Entry<T>>>) {
    forall b, c | 0 <= b < c < |slots| && slots[b].Some? && slots[c].Some? ::
      slots[b].value.index != slots[c].value.index
  }

  /** With at most one entry for a slot: it has to be at home or to meet its slot on the way down. */
  lemma FineIsInPlace<T>(slots: seq<Option<Entry<T>>>, n: nat, c: nat)
    requires |slots| < n && Distinct(slots) && IndicesBelow(slots, n) && NoneDefault(slots)
    requires c < |slots| && slots[c].Some?
    ensures Fine(slots, n, c) <==> InPlace(slots, n, c)
  {
    if InPlace(slots, n, c) {
      assert Kept(slots, n, c);
    } else {
      forall b: nat | b < |slots| && Kept(slots, n, b) ensures slots[b] != slots[c] {
      }
    }
  }

  /** Without null entries: exactly when the missing slots are consecutive, so that the
      entries below the gap stay and those above it all move up by its length. */
  lemma StructsExactGap<T>(slots: seq<Option<Entry<T>>>, n: nat, m: seq<Option<Entry<T>>>)
    requires Descents(slots, n, m) && Distinct(slots) && IndicesBelow(slots, n) && AllThere(slots) && NoneDefault(slots)
    ensures Normal(slots, m, n) <==>
            forall c | 0 <= c < |slots| :: slots[c].value.index == c || slots[c].value.index == c + n - |slots|
  {
    StructsExact(slots, n, m);
    forall c: nat | c < |slots|
      ensures Fine(slots, n, c) <==> slots[c].value.index == c || slots[c].value.index == c + n - |slots|
    {
      AboveAll(slots, c);
      FineIsInPlace(slots, n, c);
    }
  }

  predicate AllThere<T>(slots: seq<Option<Entry<T>>>) { forall c | 0 <= c < |slots| :: slots[c].Some? }

  lemma {:induction false} AboveAll<T>(slots: seq<Option<Entry<T>>>, c: int)
    requires -1 <= c < |slots| && AllThere(slots)
    ensures Above(slots, c) == |slots| - 1 - c
    decreases |slots| - c
  {
    if c < |slots| - 1 {
      AboveAll(slots, c + 1);
    }
  }

  /** Entries 1 and 2 of four are left in slots 0 and 1. */
  lemma StructsGoWrong(a: Entry<State>, b: Entry<State>, m: seq<Option<Entry<State>>>)
    requires a.index == 1 && b.index == 2
    requires |m| == 4 && forall i | 0 <= i < 4 :: SlotIs([Some(a), Some(b)], 4, i, m[i])
    ensures Aligned([Some(a), Some(b)]) && m[0] == Some(a) && m[1] == Some(b)
    ensures !Normal([Some(a), Some(b)], m, 4)
  {
    var slots := [Some(a), Some(b)];
    AboveAll(slots, 0);
    AboveAll(slots, 1);
    assert SlotIs(slots, 4, 0, m[0]) && SlotIs(slots, 4, 1, m[1]);
    assert slots[0].value.index == 1 && m[1] != slots[0];
  }
}

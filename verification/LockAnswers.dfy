/** What players are answered who ask for locks: names that are exempt, locks given up, and timers. */
module LockAnswers {
  import opened Wire
  import opened PlKeys
  import opened Locks

  // ---------- Names ----------

  predicate NoZero(s: Bytes) { forall i | 0 <= i < |s| :: s[i] != 0 }

  /** The letters of Footstep, from the i-th byte on. */
  predicate FootstepAt(s: Bytes, i: nat) {
    && i + 8 <= |s|
    && s[i] == 70 && s[i + 1] == 111 && s[i + 2] == 111 && s[i + 3] == 116
    && s[i + 4] == 115 && s[i + 5] == 116 && s[i + 6] == 101 && s[i + 7] == 112
  }

  /** What counts of a name is before its first zero byte. */
  lemma {:induction false} BeforeZero(s: Bytes, rest: Bytes)
    requires NoZero(s) && (rest == [] || rest[0] == 0)
    ensures CStr(s + rest) == s
  {
    if s == [] {
      assert s + rest == rest;
    } else {
      assert (s + rest)[1..] == s[1..] + rest;
      BeforeZero(s[1..], rest);
    }
  }

  lemma WordAt(s: Bytes, i: nat)
    ensures HasAt(s, FOOTSTEP, i) <==> FootstepAt(s, i)
  {
    if i + 8 <= |s| {
      var w := s[i..i + 8];
      assert forall k | 0 <= k < 8 :: w[k] == s[i + k];
      if FootstepAt(s, i) {
        assert w[0] == 70 && w[1] == 111 && w[2] == 111 && w[3] == 116;
        assert w[4] == 115 && w[5] == 116 && w[6] == 101 && w[7] == 112;
        assert w == FOOTSTEP;
      }
    }
  }

  /** A name is exempt exactly if the eight letters stand in it, in a row and before any zero. */
  lemma ExemptExactly(key: PlKey, s: Bytes, rest: Bytes)
    requires key.name == s + rest && NoZero(s) && (rest == [] || rest[0] == 0)
    ensures Footstep(key) <==> exists i: nat :: FootstepAt(s, i)
  {
    BeforeZero(s, rest);
    hide HasAt, FootstepAt, FOOTSTEP;
    forall i: nat ensures HasAt(s, FOOTSTEP, i) <==> FootstepAt(s, i) {
      WordAt(s, i);
    }
    if i: nat :| FootstepAt(s, i) {
      InRange(s, i);
      assert HasAt(s, FOOTSTEP, i);
    }
  }

  lemma InRange(s: Bytes, i: nat)
    requires FootstepAt(s, i)
    ensures i <= |s|
  {
  }

  /** Whatever stands around the word, anyone may lock and unlock at any time, and nothing happens. */
  lemma FootstepsAreFree(key: PlKey, a: Bytes, b: Bytes, s: State, ki: nat)
    requires NoZero(a) && NoZero(b) && key.name == a + [70, 111, 111, 116, 115, 116, 101, 112] + b
    ensures Answer(s, Lock(key, ki)) && Answer(s, Unlock(key, ki))
    ensures Step(s, Lock(key, ki)) == s && Step(s, Unlock(key, ki)) == s
  {
    hide Held, Grants, Footstep;
    var none: Bytes := [];
    assert key.name + none == key.name;
    ExemptExactly(key, key.name, none);
    assert FootstepAt(key.name, |a|);
  }

  /** A name without a capital F, say. */
  lemma NoFootstep(key: PlKey)
    requires NoZero(key.name) && forall i | 0 <= i < |key.name| :: key.name[i] != 70
    ensures !Footstep(key)
  {
    hide Footstep;
    var none: Bytes := [];
    assert key.name + none == key.name;
    ExemptExactly(key, key.name, none);
  }

  // ---------- Two players ----------

  lemma OneMore(s: State, ops: seq<Op>, op: Op)
    ensures RunFrom(s, ops + [op]) == Step(RunFrom(s, ops), op)
    ensures Answers(s, ops + [op]) == Answers(s, ops) + [Answer(RunFrom(s, ops), op)]
  {
    var more := ops + [op];
    assert more[..|more| - 1] == ops;
    forall i | 0 <= i < |ops| ensures more[..i] == ops[..i] {
    }
  }

  lemma NothingHeld(key: PlKey)
    ensures RunFrom(Start, []) == Start && Answers(Start, []) == []
    ensures Held([], key).None? && Grants([], key) == 0
  {
  }

  /** The first gets the lock, and the second gets it too exactly if its name is exempt. */
  lemma SecondIsRefused(key: PlKey, s: Bytes, rest: Bytes, one: nat, two: nat)
    requires key.name == s + rest && NoZero(s) && (rest == [] || rest[0] == 0) && one != 0
    ensures Answers(Start, [Lock(key, one), Lock(key, two)]) == [true, exists i: nat :: FootstepAt(s, i)]
  {
    hide Footstep, Held, Grants, Step, Answer, FootstepAt;
    var none: seq<Op>, ok: seq<bool> := [], [];
    NothingHeld(key);
    ExemptExactly(key, s, rest);
    OneMore(Start, none, Lock(key, one));
    OneMore(Start, none + [Lock(key, one)], Lock(key, two));
    assert none + [Lock(key, one)] + [Lock(key, two)] == [Lock(key, one), Lock(key, two)];
    LockSteps(Start, key, one);
    StepHeld(Start, Lock(key, one), key);
    LockSteps(Step(Start, Lock(key, one)), key, two);
    assert ok + [true] == [true];
  }

  // ---------- Giving up a lock ----------

  /** Some earlier request that was granted has not been ended. */
  predicate StillOwns(ops: seq<Op>, j: nat, key: PlKey, ki: nat)
    requires j <= |ops|
  {
    exists i :: 0 <= i < j && Grant(ops, i) && ops[i].key == key && ops[i].ki == ki
                && forall m | i < m < j :: !Frees(ops, i, m)
  }

  /** Over any run from the start, a player who gives a lock up is told so exactly if it was granted to
      that player and that grant has not been ended. */
  lemma ReleasedExactly(ops: seq<Op>, j: nat)
    requires j < |ops| && ops[j].Unlock? && !Footstep(ops[j].key) && ops[j].ki != 0
    ensures Answer(At(ops, j), ops[j]) <==> StillOwns(ops, j, ops[j].key, ops[j].ki)
  {
    hide Footstep, Held, Grants, Step, At;
    var key, ki := ops[j].key, ops[j].ki;
    if Held(At(ops, j).log, key).Some? {
      var k := HeldByGrant(ops, j, key);
      assert ops[k].ki == ki ==> StillOwns(ops, j, key, ki);
    }
    if i :| 0 <= i < j && Grant(ops, i) && ops[i].key == key && ops[i].ki == ki
            && forall m | i < m < j :: !Frees(ops, i, m) {
      StillHeld(ops, i, j);
    }
  }

  /** Some player was given the lock, whatever became of it. */
  predicate GivenBefore(ops: seq<Op>, j: nat, key: PlKey)
    requires j <= |ops|
  {
    exists i :: 0 <= i < j && ops[i].Lock? && ops[i].key == key && Answer(At(ops, i), ops[i])
  }

  lemma {:induction false} GrantsCount(ops: seq<Op>, n: nat, key: PlKey)
    requires n <= |ops| && !Footstep(key)
    ensures Grants(At(ops, n).log, key) > 0 <==> GivenBefore(ops, n, key)
  {
    hide Footstep, Held, Step;
    if n > 0 {
      AtNext(ops, n - 1);
      GrantsCount(ops, n - 1, key);
      StepGrants(At(ops, n - 1), ops[n - 1], key);
    } else {
      NothingHeld(key);
      assert ops[..0] == [];
    }
  }

  lemma StepGrants(s: State, op: Op, key: PlKey)
    requires !Footstep(key)
    ensures Grants(Step(s, op).log, key)
            == Grants(s.log, key) + if op.Lock? && op.key == key && Answer(s, op) then 1 else 0
  {
    hide Footstep, Held, Grants;
    match op
    case Lock(k, ki) => Appended(s.log, Granted(k, ki, Grants(s.log, k) + 1), key);
    case Unlock(k, ki) => Appended(s.log, Released(k, ki), key);
    case Late(k) =>
      if k < |s.timers| {
        Appended(s.log, TimedOut(s.timers[k].key, s.timers[k].seqno), key);
      }
  }

  /** Player zero, who is nobody, is told so of locks that were once given and that nobody holds. */
  lemma ZeroIsToldSo(ops: seq<Op>, j: nat)
    requires j < |ops| && ops[j].Unlock? && !Footstep(ops[j].key) && ops[j].ki == 0
    ensures Answer(At(ops, j), ops[j]) <==>
            GivenBefore(ops, j, ops[j].key) && forall ki: nat :: !StillOwns(ops, j, ops[j].key, ki)
  {
    hide Footstep, Held, Grants, Step, At;
    var key := ops[j].key;
    GrantsCount(ops, j, key);
    if Held(At(ops, j).log, key).Some? {
      var k := HeldByGrant(ops, j, key);
      assert StillOwns(ops, j, key, ops[k].ki);
    }
    forall ki: nat | StillOwns(ops, j, key, ki) ensures Held(At(ops, j).log, key).Some? && ki != 0 {
      var i :| 0 <= i < j && Grant(ops, i) && ops[i].key == key && ops[i].ki == ki
               && forall m | i < m < j :: !Frees(ops, i, m);
      StillHeld(ops, i, j);
    }
    if Held(At(ops, j).log, key).Some? {
      HolderIsSomebody(ops, j, key);
    }
  }

  lemma HolderIsSomebody(ops: seq<Op>, j: nat, key: PlKey)
    requires j <= |ops| && Held(At(ops, j).log, key).Some?
    ensures Held(At(ops, j).log, key).value.who != 0
  {
    var k := HeldByGrant(ops, j, key);
  }

  // ---------- Timers ----------

  /** The timer of a grant has gone off. */
  predicate Rang(ops: seq<Op>, i: nat, n: nat)
    requires Grant(ops, i) && n <= |ops|
  {
    exists m :: i < m < n && ops[m].Late? && ops[m].k < |At(ops, m).timers|
                && At(ops, m).timers[ops[m].k] == Ticket(ops[i].key, GrantNumber(ops, i))
  }

  /** Every grant sets a timer of its own, which is there until it goes off, once. */
  lemma {:induction false} TimerWaits(ops: seq<Op>, i: nat, n: nat)
    requires Grant(ops, i) && i < n <= |ops|
    ensures Ticket(ops[i].key, GrantNumber(ops, i)) in At(ops, n).timers || Rang(ops, i, n)
  {
    hide Footstep, Held, Grants, At;
    AtNext(ops, n - 1);
    var s, ticket := At(ops, n - 1), Ticket(ops[i].key, GrantNumber(ops, i));
    if i == n - 1 {
      assert Step(s, ops[i]).timers == s.timers + [ticket];
    } else {
      TimerWaits(ops, i, n - 1);
      if ticket in s.timers {
        var p :| 0 <= p < |s.timers| && s.timers[p] == ticket;
        OneTimerLess(s, ops[n - 1], p);
      }
    }
  }

  lemma OneTimerLess(s: State, op: Op, p: nat)
    requires p < |s.timers|
    ensures s.timers[p] in Step(s, op).timers || op == Late(p)
  {
    hide Footstep, Held, Grants;
    var t := Step(s, op).timers;
    if op.Late? && op.k < |s.timers| && op.k != p {
      assert t[if p < op.k then p else p - 1] == s.timers[p];
    } else if op != Late(p) {
      assert t[p] == s.timers[p];
    }
  }

  /** A lock runs out with its timer, but not with the timer of a grant that was given up. */
  lemma RunsOutOnce(key: PlKey, one: nat, two: nat, three: nat)
    requires !Footstep(key) && one != 0 && two != 0
    ensures Answers(Start, [Lock(key, one), Late(0), Lock(key, two)]) == [true, true, true]
    ensures Answers(Start, [Lock(key, one), Unlock(key, one), Lock(key, two), Late(0), Lock(key, three)])
            == [true, true, true, true, false]
  {
    hide Footstep, Held, Grants, Step, Answer;
    var none: seq<Op>, ok: seq<bool> := [], [];
    NothingHeld(key);
    Granting(Start, key, one);
    var s1 := Step(Start, Lock(key, one));
    OneMore(Start, none, Lock(key, one));
    assert none + [Lock(key, one)] == [Lock(key, one)] && ok + [true] == [true];
    // the timer goes off
    Ringing(s1, key, 0);
    OneMore(Start, [Lock(key, one)], Late(0));
    assert [Lock(key, one)] + [Late(0)] == [Lock(key, one), Late(0)];
    Granting(Step(s1, Late(0)), key, two);
    OneMore(Start, [Lock(key, one), Late(0)], Lock(key, two));
    assert [Lock(key, one), Late(0)] + [Lock(key, two)] == [Lock(key, one), Late(0), Lock(key, two)];
    // or does so too late
    Returning(s1, key);
    var s2 := Step(s1, Unlock(key, one));
    OneMore(Start, [Lock(key, one)], Unlock(key, one));
    assert [Lock(key, one)] + [Unlock(key, one)] == [Lock(key, one), Unlock(key, one)];
    Granting(s2, key, two);
    var s3 := Step(s2, Lock(key, two));
    OneMore(Start, [Lock(key, one), Unlock(key, one)], Lock(key, two));
    var three1 := [Lock(key, one), Unlock(key, one), Lock(key, two)];
    assert [Lock(key, one), Unlock(key, one)] + [Lock(key, two)] == three1;
    Ringing(s3, key, 0);
    OneMore(Start, three1, Late(0));
    LockSteps(Step(s3, Late(0)), key, three);
    OneMore(Start, three1 + [Late(0)], Lock(key, three));
    assert three1 + [Late(0)] + [Lock(key, three)]
        == [Lock(key, one), Unlock(key, one), Lock(key, two), Late(0), Lock(key, three)];
  }

  lemma Granting(s: State, key: PlKey, ki: nat)
    requires !Footstep(key) && Held(s.log, key).None? && ki != 0
    ensures
      var s', n := Step(s, Lock(key, ki)), Grants(s.log, key) + 1;
      && Answer(s, Lock(key, ki)) && Held(s'.log, key) == Some(Holder(ki, n)) && Grants(s'.log, key) == n
      && s'.timers == s.timers + [Ticket(key, n)]
  {
    hide Footstep, Held, Grants;
    Appended(s.log, Granted(key, ki, Grants(s.log, key) + 1), key);
  }

  lemma Returning(s: State, key: PlKey)
    requires !Footstep(key) && Held(s.log, key).Some?
    ensures
      var who := Held(s.log, key).value.who;
      var s' := Step(s, Unlock(key, who));
      && Answer(s, Unlock(key, who)) && Held(s'.log, key).None? && Grants(s'.log, key) == Grants(s.log, key)
      && s'.timers == s.timers
  {
    hide Footstep, Held, Grants;
    Appended(s.log, Released(key, Held(s.log, key).value.who), key);
  }

  lemma Ringing(s: State, key: PlKey, k: nat)
    requires k < |s.timers| && s.timers[k].key == key && Held(s.log, key).Some?
    ensures
      var s', held := Step(s, Late(k)), Held(s.log, key);
      && Answer(s, Late(k)) && s'.timers == s.timers[..k] + s.timers[k + 1..]
      && Held(s'.log, key) == if s.timers[k].seqno == held.value.seqno then None else held
  {
    hide Footstep, Held, Grants;
    Appended(s.log, TimedOut(key, s.timers[k].seqno), key);
  }
}

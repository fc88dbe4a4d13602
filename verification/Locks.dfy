/** Locks on objects, granted for a limited time (GameState.cc).  A timer is never cancelled: it
    remembers the grant it was set for and may go off at any later moment. */
module Locks {
  import opened Wire
  import opened PlKeys

  const FOOTSTEP: Bytes := [70, 111, 111, 116, 115, 116, 101, 112]

  predicate HasAt(s: Bytes, w: Bytes, i: nat) { i + |w| <= |s| && s[i..i + |w|] == w }

  /** strstr */
  predicate Contains(s: Bytes, w: Bytes) { exists i | 0 <= i <= |s| :: HasAt(s, w, i) }

  predicate Footstep(key: PlKey) { Contains(CStr(key.name), FOOTSTEP) }

  /** What has happened to locks so far, in order. */
  datatype Happening =
    | Granted(key: PlKey, who: nat, seqno: nat)
    | Released(key: PlKey, who: nat)
    | TimedOut(key: PlKey, seqno: nat)

  datatype Holder = Holder(who: nat, seqno: nat)

  /** Who holds a key's lock: the last to be granted it, unless it was released by that holder or
      that very grant has timed out. */
  function Held(log: seq<Happening>, key: PlKey): Option<Holder> {
    if log == [] then None
    else
      var before, last := Held(log[..|log| - 1], key), log[|log| - 1];
      if last.key != key then before
      else
        After(before, last)
  }

  function After(held: Option<Holder>, h: Happening): Option<Holder> {
    match h
    case Granted(_, who, seqno) => if who == 0 then None else Some(Holder(who, seqno))
    case Released(_, who) => if held.Some? && held.value.who == who then None else held
    case TimedOut(_, seqno) => if held.Some? && held.value.seqno == seqno then None else held
  }

  function Grants(log: seq<Happening>, key: PlKey): nat {
    if log == [] then 0
    else Grants(log[..|log| - 1], key) + if log[|log| - 1].Granted? && log[|log| - 1].key == key then 1 else 0
  }

  /** Locks are only granted when nobody holds them, and grants of a key are numbered. */
  predicate Orderly(log: seq<Happening>) {
    forall i | 0 <= i < |log| && log[i].Granted? ::
      Held(log[..i], log[i].key).None? && log[i].seqno == Grants(log[..i + 1], log[i].key)
  }

  lemma {:induction false} GrantsGrow(log: seq<Happening>, key: PlKey, i: nat)
    requires i <= |log|
    ensures Grants(log[..i], key) <= Grants(log, key)
  {
    if i == |log| {
      assert log[..i] == log;
    } else {
      assert log[..|log| - 1][..i] == log[..i];
      GrantsGrow(log[..|log| - 1], key, i);
    }
  }

  /** The i-th happening grants a lock, and the m-th ends that grant: the same holder gives it up,
      or its own timer goes off. */
  predicate Ends(log: seq<Happening>, i: nat, m: nat)
    requires i < |log| && m < |log| && log[i].Granted?
  {
    log[m] == Released(log[i].key, log[i].who) || log[m] == TimedOut(log[i].key, log[i].seqno)
  }

  /** A grant holds until it ends. */
  lemma {:induction false} HeldUntilEnded(log: seq<Happening>, i: nat, n: nat)
    requires Orderly(log) && i < n <= |log| && log[i].Granted? && log[i].who != 0
    requires forall m | i < m < n :: !Ends(log, i, m)
    ensures Held(log[..n], log[i].key) == Some(Holder(log[i].who, log[i].seqno))
    decreases n
  {
    var key, prefix := log[i].key, log[..n];
    assert prefix[..n - 1] == log[..n - 1];
    if i < n - 1 {
      HeldUntilEnded(log, i, n - 1);
      assert !Ends(log, i, n - 1);
    }
  }

  /** Two grants of the same key are separated by a release from the first holder or by the expiry
      of the first grant. */
  lemma GrantsAreSeparated(log: seq<Happening>, i: nat, j: nat)
    requires Orderly(log) && i < j < |log| && log[i].Granted? && log[j].Granted?
    requires log[i].key == log[j].key && log[i].who != 0
    ensures exists m :: i < m < j && Ends(log, i, m)
    ensures log[i].seqno < log[j].seqno
  {
    if forall m | i < m < j :: !Ends(log, i, m) {
      HeldUntilEnded(log, i, j);
      assert false;
    }
    assert log[..j + 1][..j] == log[..j];
    assert log[..j][..i + 1] == log[..i + 1];
    GrantsGrow(log[..j], log[i].key, i + 1);
  }

  /** The timer of one grant never ends another. */
  lemma StaleTimersAreHarmless(log: seq<Happening>, key: PlKey, seqno: nat)
    requires Held(log, key).Some? && Held(log, key).value.seqno != seqno
    ensures Held(log + [TimedOut(key, seqno)], key) == Held(log, key)
  {
    assert (log + [TimedOut(key, seqno)])[..|log|] == log;
  }

  /** Player zero would be granted a lock that stays free: nothing separates it from the next. */
  lemma ZeroIsNotSeparated(key: PlKey, who: nat)
    ensures Orderly([Granted(key, 0, 1), Granted(key, who, 2)])
  {
    var one, two := Granted(key, 0, 1), Granted(key, who, 2);
    Appended([], one, key);
    Appended([one], two, key);
    assert [] + [one] == [one] && [one] + [two] == [one, two];
    OrderlyAppend([], one);
    OrderlyAppend([one], two);
  }

  /** What one more happening means for a key. */
  lemma Appended(log: seq<Happening>, h: Happening, key: PlKey)
    ensures (log + [h])[..|log|] == log
    ensures Held(log + [h], key) == if h.key == key then After(Held(log, key), h) else Held(log, key)
    ensures Grants(log + [h], key) == Grants(log, key) + if h.Granted? && h.key == key then 1 else 0
  {
    assert (log + [h])[..|log|] == log;
  }

  lemma OrderlyAppend(log: seq<Happening>, h: Happening)
    requires Orderly(log)
    requires h.Granted? ==> Held(log, h.key).None? && h.seqno == Grants(log, h.key) + 1
    ensures Orderly(log + [h])
  {
    var more := log + [h];
    Appended(log, h, h.key);
    assert more[..|more|] == more;
    forall i | 0 <= i < |more| && more[i].Granted?
      ensures Held(more[..i], more[i].key).None? && more[i].seqno == Grants(more[..i + 1], more[i].key)
    {
      if i < |log| {
        assert more[..i] == log[..i] && more[..i + 1] == log[..i + 1];
      }
    }
  }

  // ---------- Runs ----------

  datatype Op = Lock(key: PlKey, ki: nat) | Unlock(key: PlKey, ki: nat) | Late(k: nat)

  /** A timer that has not gone off: the lock and the number of the grant it was set for. */
  datatype Ticket = Ticket(key: PlKey, seqno: nat)

  datatype State = State(log: seq<Happening>, timers: seq<Ticket>)

  const Start := State([], [])

  /** Whether the lock's holder is ki.  One that nobody holds answers to player zero, if it was ever
      asked for. */
  predicate MayClear(log: seq<Happening>, key: PlKey, ki: nat) {
    var held := Held(log, key);
    if held.Some? then held.value.who == ki else ki == 0 && Grants(log, key) > 0
  }

  /** What is answered; for a timer, whether there is one. */
  predicate Answer(s: State, op: Op) {
    match op
    case Lock(key, _) => Footstep(key) || Held(s.log, key).None?
    case Unlock(key, ki) => Footstep(key) || MayClear(s.log, key, ki)
    case Late(k) => k < |s.timers|
  }

  function Step(s: State, op: Op): State {
    if !Answer(s, op) || (!op.Late? && Footstep(op.key)) then s
    else
      match op
      case Lock(key, ki) =>
        var seqno := Grants(s.log, key) + 1;
        State(s.log + [Granted(key, ki, seqno)], s.timers + [Ticket(key, seqno)])
      case Unlock(key, ki) => s.(log := s.log + [Released(key, ki)])
      case Late(k) =>
        State(s.log + [TimedOut(s.timers[k].key, s.timers[k].seqno)], s.timers[..k] + s.timers[k + 1..])
  }

  function RunFrom(s: State, ops: seq<Op>): State {
    if ops == [] then s else Step(RunFrom(s, ops[..|ops| - 1]), ops[|ops| - 1])
  }

  function Answers(s: State, ops: seq<Op>): (r: seq<bool>)
    ensures |r| == |ops|
  {
    seq(|ops|, i requires 0 <= i < |ops| => Answer(RunFrom(s, ops[..i]), ops[i]))
  }

  /** The state when the i-th request comes. */
  function At(ops: seq<Op>, i: nat): State
    requires i <= |ops|
  {
    RunFrom(Start, ops[..i])
  }

  /** The i-th request is for a lock, and a player gets it. */
  predicate Grant(ops: seq<Op>, i: nat) {
    i < |ops| && ops[i].Lock? && ops[i].ki != 0 && !Footstep(ops[i].key) && Answer(At(ops, i), ops[i])
  }

  function GrantNumber(ops: seq<Op>, i: nat): nat
    requires Grant(ops, i)
  {
    Grants(At(ops, i).log, ops[i].key) + 1
  }

  /** The m-th operation ends the i-th one's grant: the holder gives the lock up and is told so, or
      the timer set for that grant goes off. */
  predicate Frees(ops: seq<Op>, i: nat, m: nat)
    requires Grant(ops, i) && m < |ops|
  {
    && Answer(At(ops, m), ops[m])
    && (ops[m] == Unlock(ops[i].key, ops[i].ki)
        || (ops[m].Late? && At(ops, m).timers[ops[m].k] == Ticket(ops[i].key, GrantNumber(ops, i))))
  }

  /** Asking for a lock that nobody holds, and any other request for one. */
  lemma LockSteps(s: State, key: PlKey, ki: nat)
    ensures
      var op, seqno := Lock(key, ki), Grants(s.log, key) + 1;
      if !Footstep(key) && Held(s.log, key).None? then
        Answer(s, op) && Step(s, op) == State(s.log + [Granted(key, ki, seqno)], s.timers + [Ticket(key, seqno)])
      else (Answer(s, op) <==> Footstep(key)) && Step(s, op) == s
  {
    hide Footstep, Held, Grants;
  }

  lemma NoTimer(s: State, k: nat)
    ensures Answer(s, Late(k)) <==> k < |s.timers|
    ensures k >= |s.timers| ==> Step(s, Late(k)) == s
  {
  }

  /** What one operation does to the holder of one key. */
  lemma StepHeld(s: State, op: Op, key: PlKey)
    ensures
      var held, after := Held(s.log, key), Held(Step(s, op).log, key);
      if !Answer(s, op) || (!op.Late? && Footstep(op.key)) then after == held
      else if op.Lock? && op.key == key then
        after == if op.ki == 0 then None else Some(Holder(op.ki, Grants(s.log, key) + 1))
      else if op == Unlock(key, if held.Some? then held.value.who else 0) then after.None?
      else if op.Late? && held.Some? && s.timers[op.k] == Ticket(key, held.value.seqno) then after.None?
      else after == held
  {
    hide Footstep, Held, Grants;
    match op
    case Lock(k, ki) => Appended(s.log, Granted(k, ki, Grants(s.log, k) + 1), key);
    case Unlock(k, ki) => Appended(s.log, Released(k, ki), key);
    case Late(k) =>
      if k < |s.timers| {
        Appended(s.log, TimedOut(s.timers[k].key, s.timers[k].seqno), key);
      }
  }

  /** The run up to n, one operation later. */
  lemma AtNext(ops: seq<Op>, n: nat)
    requires n < |ops|
    ensures At(ops, n + 1) == Step(At(ops, n), ops[n])
  {
    assert ops[..n + 1][..n] == ops[..n];
  }

  /** A grant that nothing has ended holds. */
  lemma {:induction false} StillHeld(ops: seq<Op>, i: nat, n: nat)
    requires Grant(ops, i) && i < n <= |ops| && forall m | i < m < n :: !Frees(ops, i, m)
    ensures Held(At(ops, n).log, ops[i].key) == Some(Holder(ops[i].ki, GrantNumber(ops, i)))
  {
    hide Footstep, Held, Grants, Step, At;
    AtNext(ops, n - 1);
    StepHeld(At(ops, n - 1), ops[n - 1], ops[i].key);
    if i < n - 1 {
      StillHeld(ops, i, n - 1);
      assert !Frees(ops, i, n - 1);
    }
  }

  /** Whoever holds a lock was granted it, and nothing has ended that grant. */
  lemma {:induction false} HeldByGrant(ops: seq<Op>, n: nat, key: PlKey) returns (i: nat)
    requires n <= |ops| && Held(At(ops, n).log, key).Some?
    ensures i < n && Grant(ops, i) && ops[i].key == key
    ensures Held(At(ops, n).log, key).value == Holder(ops[i].ki, GrantNumber(ops, i))
    ensures forall m | i < m < n :: !Frees(ops, i, m)
  {
    hide Footstep, Grants, Step;
    assert n > 0;
    AtNext(ops, n - 1);
    var s, op := At(ops, n - 1), ops[n - 1];
    StepHeld(s, op, key);
    if Held(s.log, key).None? {
      i := n - 1;
    } else {
      i := HeldByGrant(ops, n - 1, key);
    }
  }

  /** Over any run from the start, a lock is given to whoever asks exactly if every earlier grant of
      it was ended in between, by its holder or by its own timer. */
  lemma GrantedExactly(ops: seq<Op>, j: nat)
    requires j < |ops| && ops[j].Lock? && !Footstep(ops[j].key)
    ensures
      Answer(At(ops, j), ops[j]) <==>
      forall i | 0 <= i < j && Grant(ops, i) && ops[i].key == ops[j].key :: exists m :: i < m < j && Frees(ops, i, m)
  {
    hide Footstep, Held, Grants, Step, At;
    if Answer(At(ops, j), ops[j]) {
      forall i | 0 <= i < j && Grant(ops, i) && ops[i].key == ops[j].key
        ensures exists m :: i < m < j && Frees(ops, i, m)
      {
        if forall m | i < m < j :: !Frees(ops, i, m) {
          StillHeld(ops, i, j);
          assert false;
        }
      }
    } else {
      var i := HeldByGrant(ops, j, ops[j].key);
    }
  }

  class ObjectLock {
    const key: PlKey
    var who: nat
    var lockseq: nat

    constructor (key: PlKey)
      ensures this.key == key && who == 0 && lockseq == 0
    {
      this.key := key;
      who, lockseq := 0, 0;
    }
  }

  /** A timer knows its lock and the number of its grant. */
  datatype Timer = Timer(lock: ObjectLock, lockseq: nat)

  function Tickets(timers: seq<Timer>): (t: seq<Ticket>)
    ensures |t| == |timers|
    ensures forall i | 0 <= i < |timers| :: t[i] == Ticket(timers[i].lock.key, timers[i].lockseq)
  {
    seq(|timers|, i requires 0 <= i < |timers| => Ticket(timers[i].lock.key, timers[i].lockseq))
  }

  lemma TicketsChange(timers: seq<Timer>, more: Timer, k: nat)
    ensures Tickets(timers + [more]) == Tickets(timers) + [Ticket(more.lock.key, more.lockseq)]
    ensures k < |timers| ==> Tickets(timers[..k] + timers[k + 1..]) == Tickets(timers)[..k] + Tickets(timers)[k + 1..]
  {
  }

  class LockTable {
    var locks: seq<ObjectLock>
    /** Timers that have not gone off, in any order. */
    var timers: seq<Timer>
    ghost var log: seq<Happening>

    /** A lock is only made to be granted. */
    ghost predicate Valid()
      reads this, locks
    {
      Sound() && forall i | 0 <= i < |locks| :: locks[i].lockseq > 0
    }

    ghost predicate Sound()
      reads this, locks
    {
      && (forall i, j | 0 <= i < j < |locks| :: locks[i].key != locks[j].key)
      && (forall i | 0 <= i < |locks| :: Reflects(locks[i]))
      && (forall key :: Unknown(key) ==> Held(log, key).None? && Grants(log, key) == 0)
      && (forall i | 0 <= i < |timers| :: timers[i].lock in locks)
      && Orderly(log)
    }

    ghost predicate Unknown(key: PlKey)
      reads this
    {
      forall i | 0 <= i < |locks| :: locks[i].key != key
    }

    /** A lock's fields are what the log says. */
    ghost predicate Reflects(lock: ObjectLock)
      reads this, lock
    {
      && lock.lockseq == Grants(log, lock.key)
      && (if lock.who == 0 then Held(log, lock.key).None?
          else Held(log, lock.key) == Some(Holder(lock.who, lock.lockseq)))
    }

    constructor ()
      ensures Valid() && log == [] && locks == []
    {
      locks, timers, log := [], [], [];
    }

    method Find(key: PlKey) returns (lock: ObjectLock?)
      ensures lock != null ==> lock in locks && lock.key == key
      ensures lock == null ==> Unknown(key)
    {
      for i := 0 to |locks|
        invariant forall j | 0 <= j < i :: locks[j].key != key
      {
        if locks[i].key == key {
          return locks[i];
        }
      }
      lock := null;
    }

    /** Something has happened to one lock, whose fields say so already. */
    ghost method Record(h: Happening, lock: ObjectLock)
      requires (forall i, j | 0 <= i < j < |locks| :: locks[i].key != locks[j].key) && lock in locks
          && lock.key == h.key
      requires forall l | l in locks && l != lock :: Reflects(l)
      requires forall key :: Unknown(key) ==> Held(log, key).None? && Grants(log, key) == 0
      requires forall i | 0 <= i < |timers| :: timers[i].lock in locks
      requires Orderly(log) && (h.Granted? ==> Held(log, h.key).None? && h.seqno == Grants(log, h.key) + 1)
      requires forall l | l in locks :: l.lockseq > 0
      requires lock.lockseq == Grants(log, h.key) + (if h.Granted? then 1 else 0)
      requires After(Held(log, h.key), h) == if lock.who == 0 then None else Some(Holder(lock.who, lock.lockseq))
      modifies this`log
      ensures Valid() && log == old(log) + [h]
    {
      hide Orderly, Held, Grants, After;
      log := log + [h];
      OrderlyAppend(old(log), h);
      forall key
        ensures Held(log, key) == if h.key == key then After(Held(old(log), key), h) else Held(old(log), key)
        ensures Grants(log, key) == Grants(old(log), key) + if h.Granted? && h.key == key then 1 else 0
      {
        Appended(old(log), h, key);
      }
      forall i | 0 <= i < |locks| ensures Reflects(locks[i]) {
        assert locks[i] in locks;
        assert locks[i] != lock ==> locks[i].key != lock.key;
      }
    }

    /** try_lock: granted exactly when nobody holds the lock. */
    method TryLock(key: PlKey, ki: nat) returns (granted: bool)
      requires Valid()
      modifies this, locks
      ensures Valid() && fresh(set l | l in locks && l !in old(locks))
      ensures granted <==> Footstep(key) || Held(old(log), key).None?
      ensures granted == Answer(old(View()), Lock(key, ki)) && View() == Step(old(View()), Lock(key, ki))
      ensures log == old(log) + if granted && !Footstep(key) then [Granted(key, ki, Grants(old(log), key) + 1)] else []
    {
      hide Orderly, Held, Grants, Footstep, Step, Answer, Tickets;
      LockSteps(View(), key, ki);
      if Footstep(key) {
        return true;
      }
      var theLock := LockFor(key);
      assert Reflects(theLock);
      if theLock.who != 0 {
        return false;
      }
      GrantLock(theLock, ki);
      granted := true;
    }

    method GrantLock(theLock: ObjectLock, ki: nat)
      requires Sound() && theLock in locks && theLock.who == 0
      requires forall l | l in locks && l != theLock :: l.lockseq > 0
      modifies this`log, this`timers, theLock
      ensures Valid()
      ensures log == old(log) + [Granted(theLock.key, ki, Grants(old(log), theLock.key) + 1)]
      ensures Tickets(timers) == old(Tickets(timers)) + [Ticket(theLock.key, Grants(old(log), theLock.key) + 1)]
    {
      hide Orderly, Held, Grants, Tickets;
      assert Reflects(theLock);
      theLock.who := ki;
      theLock.lockseq := theLock.lockseq + 1;
      TicketsChange(timers, Timer(theLock, theLock.lockseq), 0);
      timers := timers + [Timer(theLock, theLock.lockseq)];
      Record(Granted(theLock.key, ki, theLock.lockseq), theLock);
    }

    /** The lock for a key, created if nobody has asked for it before. */
    method LockFor(key: PlKey) returns (lock: ObjectLock)
      requires Valid()
      modifies this`locks
      ensures Sound() && lock in locks && lock.key == key
      ensures locks == old(locks) || (locks == old(locks) + [lock] && fresh(lock) && lock.who == 0)
    {
      hide Orderly, Held, Grants;
      var found := Find(key);
      if found != null {
        return found;
      }
      lock := new ObjectLock(key);
      locks := locks + [lock];
      forall k | Unknown(k) ensures old(Unknown(k)) && k != key {
        assert locks[|locks| - 1].key == key;
        assert forall i | 0 <= i < |old(locks)| :: locks[i] == old(locks)[i];
      }
    }

    /** clear_lock: only the holder can release a lock. */
    method ClearLock(key: PlKey, ki: nat) returns (ok: bool)
      requires Valid()
      modifies this, locks
      ensures Valid() && locks == old(locks)
      ensures ok == Answer(old(View()), Unlock(key, ki)) && View() == Step(old(View()), Unlock(key, ki))
      ensures ok <==> Footstep(key) || MayClear(old(log), key, ki)
      ensures log == old(log) + if ok && !Footstep(key) then [Released(key, ki)] else []
    {
      hide Orderly, Held, Grants, Contains;
      if Footstep(key) {
        return true;
      }
      var lock := Find(key);
      if lock == null {
        return false;
      }
      assert Reflects(lock);
      if lock.who != ki {
        return false;
      }
      lock.who := 0;
      Record(Released(key, ki), lock);
      ok := true;
    }

    /** The k-th timer goes off, however late.  It frees the lock exactly if the grant it was set
        for still stands. */
    method Expire(k: nat)
      requires Valid() && k < |timers|
      modifies this, locks
      ensures Valid() && locks == old(locks)
      ensures View() == Step(old(View()), Late(k)) && timers == old(timers[..k] + timers[k + 1..])
      ensures log == old(log) + [TimedOut(old(timers[k].lock.key), old(timers[k].lockseq))]
    {
      hide Orderly, Held, Grants;
      var Timer(lock, lockseq) := timers[k];
      TicketsChange(timers, timers[k], k);
      timers := timers[..k] + timers[k + 1..];
      assert Reflects(lock);
      if lock.who != 0 && lock.lockseq == lockseq {
        lock.who := 0;
      }
      Record(TimedOut(lock.key, lockseq), lock);
    }

    ghost function View(): State
      reads this
    {
      State(log, Tickets(timers))
    }

    /** Any run of requests, with timers going off at any time, and what is answered. */
    method Run(ops: seq<Op>) returns (answers: seq<bool>)
      requires Valid()
      modifies this, locks
      ensures Valid() && fresh(set l | l in locks && l !in old(locks))
      ensures View() == RunFrom(old(View()), ops) && answers == Answers(old(View()), ops)
    {
      hide Orderly, Held, Grants, Footstep, Tickets, Sound, Step, Answer;
      answers := [];
      ghost var start := View();
      assert ops[..0] == [];
      for n := 0 to |ops|
        invariant Valid() && fresh(set l | l in locks && l !in old(locks))
        invariant View() == RunFrom(start, ops[..n]) && |answers| == n
        invariant forall i | 0 <= i < n :: answers[i] == Answer(RunFrom(start, ops[..i]), ops[i])
      {
        assert ops[..n + 1][..n] == ops[..n];
        ghost var before := View();
        var ok;
        match ops[n] {
          case Lock(key, ki) =>
            ok := TryLock(key, ki);
          case Unlock(key, ki) =>
            ok := ClearLock(key, ki);
          case Late(k) =>
            ok := k < |timers|;
            NoTimer(before, k);
            if ok {
              Expire(k);
            }
        }
        assert View() == Step(before, ops[n]);
        answers := answers + [ok];
      }
      assert ops[..|ops|] == ops;
    }
  }
}

/** The cloth game on the spiral door (BlueSpiralGameMgr in GameState.cc): seven cloths have to be
    hit in a random order. */
module BlueSpiral {
  import opened Wire

  // ---------- The order ----------

  /** The j-th value is greater than the i-th; of equal values the later is greater. */
  predicate Above(r: seq<U16>, i: nat, j: nat)
    requires i < |r| && j < |r|
  {
    i != j && (r[j] > r[i] || (r[j] == r[i] && j > i))
  }

  /** How many of the first k values are greater than the i-th. */
  function CountAbove(r: seq<U16>, i: nat, k: nat): (n: nat)
    requires i < |r| && k <= |r|
    ensures n <= k
  {
    if k == 0 then 0 else CountAbove(r, i, k - 1) + if Above(r, i, k - 1) then 1 else 0
  }

  function Ranks(r: seq<U16>): (order: seq<nat>)
    ensures |order| == |r|
  {
    seq(|r|, i requires 0 <= i < |r| => CountAbove(r, i, |r|))
  }

  ghost predicate Permutation(order: seq<nat>) {
    && (forall i, j | 0 <= i < j < |order| :: order[i] != order[j])
    && (forall v | 0 <= v < |order| :: v in order)
    && (forall i | 0 <= i < |order| :: order[i] < |order|)
  }

  /** Whatever is above the greater is above the lesser. */
  lemma {:induction false} CountMonotone(r: seq<U16>, i: nat, j: nat, k: nat)
    requires i < |r| && j < |r| && k <= |r| && Above(r, i, j)
    ensures CountAbove(r, j, k) + (if j < k then 1 else 0) <= CountAbove(r, i, k)
  {
    if k > 0 {
      CountMonotone(r, i, j, k - 1);
      assert Above(r, j, k - 1) ==> Above(r, i, k - 1) && k - 1 != j;
    }
  }

  lemma {:induction false} CountBelow(r: seq<U16>, i: nat, k: nat)
    requires i < k <= |r|
    ensures CountAbove(r, i, k) < k
  {
    if k - 1 > i {
      CountBelow(r, i, k - 1);
    }
  }

  /** Ranks are ordered as the values are, greatest first, even if values are equal. */
  lemma RanksOrder(r: seq<U16>, i: nat, j: nat)
    requires i < |r| && j < |r|
    ensures Ranks(r)[j] < Ranks(r)[i] <==> Above(r, i, j)
    ensures Ranks(r)[i] < |r|
  {
    CountBelow(r, i, |r|);
    if Above(r, i, j) {
      CountMonotone(r, i, j, |r|);
    } else if i != j {
      assert Above(r, j, i);
      CountMonotone(r, j, i, |r|);
    }
  }

  function UpTo(n: nat): (s: set<nat>)
    ensures forall v: nat :: v in s <==> v < n
    ensures |s| == n
  {
    if n == 0 then {} else UpTo(n - 1) + {n - 1}
  }

  function Elems(s: seq<nat>): (e: set<nat>)
    ensures forall v: nat :: v in e <==> v in s
  {
    set v: nat | v in s
  }

  lemma {:induction false} DistinctCount(s: seq<nat>)
    requires forall i, j | 0 <= i < j < |s| :: s[i] != s[j]
    ensures |Elems(s)| == |s|
  {
    if s == [] {
      assert Elems(s) == {};
    } else {
      var front, last := s[..|s| - 1], s[|s| - 1];
      DistinctCount(front);
      assert s == front + [last] && last !in front;
      assert Elems(s) == Elems(front) + {last};
    }
  }

  /** Distinct numbers below their count are all the numbers below it. */
  lemma NoneMissing(order: seq<nat>, v: nat)
    requires forall i, j | 0 <= i < j < |order| :: order[i] != order[j]
    requires forall i | 0 <= i < |order| :: order[i] < |order|
    requires v < |order|
    ensures v in order
  {
    hide Elems, UpTo;
    var hit, all := Elems(order), UpTo(|order|);
    DistinctCount(order);
    assert hit <= all;
    assert |all - hit| == |all| - |hit|;
    assert v !in all - hit;
  }

  /** For any values, equal ones included, the ranks are a permutation. */
  lemma RanksPermute(r: seq<U16>)
    ensures Permutation(Ranks(r))
  {
    hide Ranks;
    var order := Ranks(r);
    forall i, j | 0 <= i < j < |order| ensures order[i] != order[j] {
      RanksOrder(r, i, j);
      RanksOrder(r, j, i);
      assert Above(r, i, j) || Above(r, j, i);
    }
    forall i | 0 <= i < |order| ensures order[i] < |order| {
      RanksOrder(r, i, i);
    }
    forall v | 0 <= v < |order| ensures v in order {
      NoneMissing(order, v);
    }
  }

  // ---------- Timers ----------

  const CLOTHS := 7

  datatype Action = TurnDoor | GameDone

  /** Whether a game is running, the timer it knows about, and all timers that have yet to go off.
      The source does not say which game a timer was set for; setBy does. */
  datatype Clock = Clock(
    started: bool,
    timer: Option<nat>,
    pending: map<nat, Action>,
    setBy: map<nat, nat>,
    games: nat,
    timerCt: nat)
  {
    function SetBy(id: nat): nat { if id in setBy then setBy[id] else 0 }

    function Others(): map<nat, Action> { if timer.Some? then pending - {timer.value} else pending }
  }

  datatype Event = Begin | Right | Wrong | Won | Fired(id: nat) | Emptied

  function Tick(c: Clock, e: Event): Clock {
    match e
    case Begin =>
      var left := if c.started then c.Others() else c.pending;
      var id, game := c.timerCt, c.games + 1;
      Clock(true, Some(id), left[id := TurnDoor], c.setBy[id := game], game, id + 1)
    case Wrong =>
      if c.started then c.(started := false, timer := None, pending := c.Others()) else c
    case Fired(id) =>
      if id !in c.pending then c
      else if c.pending[id].TurnDoor? then
        c.(timer := Some(c.timerCt), pending := (c.pending - {id})[c.timerCt := GameDone],
           setBy := c.setBy[c.timerCt := c.SetBy(id)], timerCt := c.timerCt + 1)
      else c.(started := false, timer := None, pending := c.pending - {id})
    case Right => c
    case Won => c.(started := false)
    case Emptied => c.(started := false)
  }

  function TickAll(c: Clock, es: seq<Event>): Clock {
    if es == [] then c else Tick(TickAll(c, es[..|es| - 1]), es[|es| - 1])
  }

  const AtRest := Clock(false, None, map[], map[], 0, 0)

  ghost predicate Sound(c: Clock) {
    && (c.started ==> c.timer.Some?)
    && (c.timer.Some? ==> c.timer.value in c.pending)
    && (forall id | id in c.pending :: id < c.timerCt && c.SetBy(id) <= c.games)
  }

  lemma SoundTick(c: Clock, e: Event)
    requires Sound(c)
    ensures Sound(Tick(c, e))
  {
  }

  lemma {:induction false} SoundRun(c: Clock, es: seq<Event>)
    requires Sound(c)
    ensures Sound(TickAll(c, es))
  {
    if es != [] {
      SoundRun(c, es[..|es| - 1]);
      SoundTick(TickAll(c, es[..|es| - 1]), es[|es| - 1]);
    }
  }

  /** A running game is ended by a timer that was set for another. */
  predicate EndsAnother(c: Clock, e: Event) {
    e.Fired? && e.id in c.pending && c.pending[e.id].GameDone? && c.started && c.SetBy(e.id) != c.games
  }

  /** Starting a game leaves it alone with its timer. */
  predicate StartsClean(c: Clock) {
    if c.started then c.Others() == map[] else c.pending == map[]
  }

  ghost predicate Clean(c: Clock) { forall id | id in c.pending :: c.SetBy(id) == c.games }

  lemma CleanStart(c: Clock)
    requires Sound(c)
    ensures
      var d := Tick(c, Begin);
      && (Clean(d) <==> StartsClean(c))
      && (d.pending.Keys == {c.timerCt} <==> StartsClean(c))
  {
    var d := Tick(c, Begin);
    var left := if c.started then c.Others() else c.pending;
    if id :| id in left {
      assert id in d.pending && d.SetBy(id) != d.games && id != c.timerCt;
    } else {
      assert left == map[];
    }
  }

  lemma CleanTick(c: Clock, e: Event)
    requires Sound(c) && Clean(c) && !e.Begin?
    ensures Clean(Tick(c, e)) && !EndsAnother(c, e)
  {
  }

  ghost predicate Continues(es: seq<Event>) { forall i | 0 <= i < |es| :: !es[i].Begin? }

  lemma {:induction false} CleanRun(c: Clock, es: seq<Event>)
    requires Sound(c) && Clean(c) && Continues(es)
    ensures Clean(TickAll(c, es))
  {
    if es != [] {
      CleanRun(c, es[..|es| - 1]);
      SoundRun(c, es[..|es| - 1]);
      CleanTick(TickAll(c, es[..|es| - 1]), es[|es| - 1]);
    }
  }

  /** There is a way on, without another start, to where another game's timer ends the game. */
  ghost predicate AnotherCanEnd(c: Clock) {
    exists es, e :: Continues(es) && EndsAnother(TickAll(c, es), e)
  }

  /** A game can be ended by a timer of another exactly if it did not start clean. */
  lemma EndedByAnotherExactly(c: Clock)
    requires Sound(c)
    ensures AnotherCanEnd(Tick(c, Begin)) <==> !StartsClean(c)
  {
    var d := Tick(c, Begin);
    SoundTick(c, Begin);
    CleanStart(c);
    if StartsClean(c) {
      forall es, e | Continues(es) ensures !EndsAnother(TickAll(d, es), e) {
        CleanRun(d, es);
        SoundRun(d, es);
        if !e.Begin? {
          CleanTick(TickAll(d, es), e);
        }
      }
    } else {
      var id :| id in d.pending && d.SetBy(id) != d.games;
      var none: seq<Event> := [];
      if d.pending[id].GameDone? {
        assert Continues(none) && EndsAnother(TickAll(d, none), Fired(id));
      } else {
        var es := [Fired(id)];
        assert es[..0] == none && TickAll(d, none) == d;
        assert TickAll(d, es) == Tick(d, Fired(id));
        assert Continues(es) && EndsAnother(TickAll(d, es), Fired(d.timerCt));
      }
    }
  }

  /** In any run: the last start before a game is ended by another's timer was not clean. */
  lemma {:induction false} FaultAtStart(es: seq<Event>, e: Event) returns (j: nat)
    requires EndsAnother(TickAll(AtRest, es), e)
    ensures j < |es| && es[j].Begin? && Continues(es[j + 1..]) && !StartsClean(TickAll(AtRest, es[..j]))
  {
    j := LastStart(es);
    var c := TickAll(AtRest, es[..j]);
    SoundRun(AtRest, es[..j]);
    if StartsClean(c) {
      var d, rest := Tick(c, Begin), es[j + 1..];
      assert es[..j + 1][..j] == es[..j];
      assert es == es[..j + 1] + rest;
      TickOn(AtRest, es[..j + 1], rest);
      SoundTick(c, Begin);
      CleanStart(c);
      SoundRun(d, rest);
      CleanRun(d, rest);
      CleanTick(TickAll(d, rest), e);
    }
  }

  lemma {:induction false} LastStart(es: seq<Event>) returns (j: nat)
    requires TickAll(AtRest, es).started
    ensures j < |es| && es[j].Begin? && Continues(es[j + 1..])
  {
    var n := |es| - 1;
    if es[n].Begin? {
      j := n;
    } else {
      j := LastStart(es[..n]);
      assert es[..n][j + 1..] + [es[n]] == es[j + 1..];
    }
  }

  lemma {:induction false} TickOn(c: Clock, es: seq<Event>, more: seq<Event>)
    ensures TickAll(c, es + more) == TickAll(TickAll(c, es), more)
  {
    if more == [] {
      assert es + more == es;
    } else {
      var n := |more| - 1;
      TickOn(c, es, more[..n]);
      assert (es + more)[..|es| + n] == es + more[..n];
    }
  }

  /** Winning a game, or everyone's leaving it, stops no timer, and the next start does not either. */
  lemma WonIsNeverClean(c: Clock, e: Event)
    requires Sound(c) && c.started && (e.Won? || e.Emptied?)
    ensures !StartsClean(Tick(c, e))
  {
    assert c.timer.value in c.pending;
  }

  /** A game lost to a wrong hit, or stopped by the next start, leaves only what others left to it. */
  lemma LostStartsClean(c: Clock)
    requires Sound(c) && c.started
    ensures StartsClean(Tick(c, Wrong)) <==> StartsClean(c)
    ensures StartsClean(c) <==> c.pending.Keys <= {c.timer.value}
  {
    if c.pending.Keys <= {c.timer.value} {
      assert c.Others().Keys == {};
    } else {
      var id :| id in c.pending && id != c.timer.value;
      assert id in c.Others();
    }
  }

  // ---------- Runs ----------

  datatype Op = Start(data: seq<U16>) | Hit(cloth: nat) | Fire(id: nat) | Left(ageEmpty: bool)

  predicate OpOk(op: Op) { op.Start? ==> |op.data| >= CLOTHS }

  /** All there is of a game.  The hits are the accepted ones since the last start. */
  datatype Round = Round(order: seq<nat>, next: nat, hits: seq<nat>, clock: Clock)

  ghost predicate RoundOk(r: Round) {
    && |r.order| == CLOTHS && r.next <= CLOTHS
    && r.hits == r.order[..r.next]
    && (r.clock.started ==> r.next < CLOTHS)
    && (r.clock.started || r.next > 0 ==> Permutation(r.order))
    && Sound(r.clock)
  }

  const NewRound := Round([0, 0, 0, 0, 0, 0, 0], 0, [], AtRest)

  function HitEvent(r: Round, cloth: nat): Event
    requires |r.order| == CLOTHS && (r.clock.started ==> r.next < CLOTHS)
  {
    if !r.clock.started then Right
    else if r.order[r.next] != cloth then Wrong
    else if r.next + 1 == CLOTHS then Won else Right
  }

  /** What an operation is for the timers. */
  function EventOf(r: Round, op: Op): Event
    requires |r.order| == CLOTHS && (r.clock.started ==> r.next < CLOTHS)
  {
    match op
    case Start(_) => Begin
    case Hit(cloth) => HitEvent(r, cloth)
    case Fire(id) => Fired(id)
    case Left(ageEmpty) => if ageEmpty then Emptied else Right
  }

  function Accepts(r: Round, cloth: nat): bool
    requires |r.order| == CLOTHS && (r.clock.started ==> r.next < CLOTHS)
  {
    r.clock.started && r.order[r.next] == cloth
  }

  function Play(r: Round, op: Op): Round
    requires |r.order| == CLOTHS && (r.clock.started ==> r.next < CLOTHS) && OpOk(op)
  {
    var clock := Tick(r.clock, EventOf(r, op));
    if op.Start? then Round(Ranks(op.data[..CLOTHS]), 0, [], clock)
    else if op.Hit? && Accepts(r, op.cloth) then r.(next := r.next + 1, hits := r.hits + [op.cloth], clock := clock)
    else r.(clock := clock)
  }

  lemma PlayKeeps(r: Round, op: Op)
    requires RoundOk(r) && OpOk(op)
    ensures RoundOk(Play(r, op))
  {
    hide Sound, Permutation, Ranks;
    SoundTick(r.clock, EventOf(r, op));
    if op.Start? {
      RanksPermute(op.data[..CLOTHS]);
    }
  }

  ghost predicate OpsOk(ops: seq<Op>) { forall i | 0 <= i < |ops| :: OpOk(ops[i]) }

  function PlayAll(ops: seq<Op>): (r: Round)
    requires OpsOk(ops)
    ensures RoundOk(r)
  {
    if ops == [] then NewRound
    else
      var r, op := PlayAll(ops[..|ops| - 1]), ops[|ops| - 1];
      PlayKeeps(r, op);
      Play(r, op)
  }

  /** The operations as events, each seen from the state it comes in. */
  function Events(ops: seq<Op>): (es: seq<Event>)
    requires OpsOk(ops)
    ensures |es| == |ops|
  {
    seq(|ops|, i requires 0 <= i < |ops| => EventOf(PlayAll(ops[..i]), ops[i]))
  }

  lemma {:induction false} ClockOfRun(ops: seq<Op>)
    requires OpsOk(ops)
    ensures PlayAll(ops).clock == TickAll(AtRest, Events(ops))
  {
    hide Play, Tick, EventOf, Permutation, Sound;
    if ops != [] {
      var n := |ops| - 1;
      ClockOfRun(ops[..n]);
      PlayClock(PlayAll(ops[..n]), ops[n]);
      EventsSoFar(ops, n);
      assert Events(ops)[n] == EventOf(PlayAll(ops[..n]), ops[n]);
    }
  }

  lemma PlayClock(r: Round, op: Op)
    requires RoundOk(r) && OpOk(op)
    ensures Play(r, op).clock == Tick(r.clock, EventOf(r, op))
  {
    hide Tick, EventOf, Permutation, Sound;
  }

  lemma EventsSoFar(ops: seq<Op>, n: nat)
    requires OpsOk(ops) && n <= |ops|
    ensures Events(ops)[..n] == Events(ops[..n])
  {
    hide PlayAll, EventOf;
    forall i | 0 <= i < n ensures Events(ops)[i] == Events(ops[..n])[i] {
      assert ops[..n][..i] == ops[..i];
    }
  }

  /** In any run the accepted hits are a prefix of the order, and seven of them are every cloth once. */
  lemma HitsOfRun(ops: seq<Op>)
    requires OpsOk(ops)
    ensures
      var r := PlayAll(ops);
      r.hits <= r.order && (|r.hits| == CLOTHS ==> Permutation(r.hits) && r.hits == r.order)
  {
    hide PlayAll, Permutation, Sound;
    var r := PlayAll(ops);
    assert r.next == CLOTHS ==> r.order[..CLOTHS] == r.order;
  }

  /** In any run, whenever another game's timer ends a game, its own start, at j, left other timers. */
  lemma FaultOfRun(ops: seq<Op>, k: nat) returns (j: nat)
    requires OpsOk(ops) && k < |ops|
    requires EndsAnother(PlayAll(ops[..k]).clock, EventOf(PlayAll(ops[..k]), ops[k]))
    ensures j < k && ops[j].Start? && (forall i | j < i < k :: !ops[i].Start?)
    ensures !StartsClean(PlayAll(ops[..j]).clock)
  {
    hide PlayAll, EventOf, Sound, Permutation, EndsAnother, StartsClean, Continues;
    ClockOfRun(ops[..k]);
    j := FaultAtStart(Events(ops[..k]), EventOf(PlayAll(ops[..k]), ops[k]));
    ClockOfRun(ops[..j]);
    EventsSoFar(ops[..k], j);
    assert ops[..k][..j] == ops[..j];
    StartsAsEvents(ops[..k], j);
  }

  lemma StartsAsEvents(ops: seq<Op>, j: nat)
    requires OpsOk(ops) && j < |ops|
    ensures forall i | 0 <= i < |ops| :: Events(ops)[i].Begin? <==> ops[i].Start?
    ensures Continues(Events(ops)[j + 1..]) <==> forall i | j < i < |ops| :: !ops[i].Start?
  {
    hide PlayAll;
    var tail := Events(ops)[j + 1..];
    assert forall i | j < i < |ops| :: tail[i - j - 1] == Events(ops)[i];
  }

  // ---------- The game ----------

  class Game {
    const order: array<nat>
    var next: nat
    var started: bool
    var timer: Option<nat>
    var pending: map<nat, Action>
    var timerCt: nat
    ghost var setBy: map<nat, nat>
    ghost var games: nat
    /** The cloths hit since the last start that were accepted. */
    ghost var hits: seq<nat>

    ghost function Now(): Clock
      reads this
    {
      Clock(started, timer, pending, setBy, games, timerCt)
    }

    ghost function View(): Round
      reads this, order
    {
      Round(order[..], next, hits, Now())
    }

    ghost predicate Valid()
      reads this, order
    {
      order.Length == CLOTHS && RoundOk(View())
    }

    constructor ()
      ensures Valid() && View() == NewRound && fresh(order)
    {
      order := new nat[CLOTHS](_ => 0);
      next, started, timer, pending, timerCt := 0, false, None, map[], 0;
      setBy, games, hits := map[], 0, [];
    }

    method SetTimer(action: Action, ghost game: nat)
      modifies this`timer, this`pending, this`timerCt, this`setBy
      ensures timer == Some(old(timerCt)) && timerCt == old(timerCt) + 1
      ensures pending == old(pending)[old(timerCt) := action] && setBy == old(setBy)[old(timerCt) := game]
    {
      pending, setBy := pending[timerCt := action], setBy[timerCt := game];
      timer, timerCt := Some(timerCt), timerCt + 1;
    }

    method CancelTimer()
      modifies this`pending
      ensures pending == old(Now()).Others()
    {
      if timer.Some? {
        pending := pending - {timer.value};
      }
    }

    /** A new order, from random data. */
    method NewOrder(r: seq<U16>)
      requires |r| == order.Length
      modifies order
      ensures order[..] == Ranks(r)
    {
      for i := 0 to |r|
        invariant forall k | 0 <= k < i :: order[k] == Ranks(r)[k]
      {
        var val := 0;
        for j := 0 to |r|
          invariant val == CountAbove(r, i, j)
        {
          if i != j && (r[j] > r[i] || (r[j] == r[i] && j > i)) {
            val := val + 1;
          }
        }
        order[i] := val;
      }
    }

    /** The owner touches the door; a game that is running is stopped first. */
    method StartGame(data: seq<U16>)
      requires Valid() && |data| >= CLOTHS
      modifies this, order
      ensures Valid() && View() == Play(old(View()), Start(data))
      ensures
        pending.Keys == {timer.value} <==>
          if old(started) then old(pending).Keys <= {old(timer).value} else old(pending) == map[]
    {
      hide Sound;
      ghost var c := Now();
      SoundTick(c, Begin);
      CleanStart(c);
      StartedClean(c);
      if started {
        CancelTimer();
      }
      started := true;
      next, hits := 0, [];
      NewOrder(data[..CLOTHS]);
      RanksPermute(data[..CLOTHS]);
      games := games + 1;
      SetTimer(TurnDoor, games);
    }

    /** A hit counts if it is the next in the order; any other ends the game. */
    method HitCloth(cloth: nat) returns (won: bool)
      requires Valid()
      modifies this
      ensures Valid() && View() == Play(old(View()), Hit(cloth))
      ensures won <==> old(started) && cloth == old(order[next]) && next == CLOTHS
    {
      hide Sound, Permutation;
      SoundTick(Now(), HitEvent(View(), cloth));
      won := false;
      if !started {
        return;
      }
      if order[next] == cloth {
        hits := hits + [cloth];
        next := next + 1;
        if next > 6 {
          started := false;
          won := true;
        }
      } else {
        started := false;
        CancelTimer();
        timer := None;
      }
    }

    /** A timer goes off: the door turns, or time is up. */
    method HandleTimeout(id: nat)
      requires Valid() && id in pending
      modifies this
      ensures Valid() && View() == Play(old(View()), Fire(id))
      ensures started <==> old(started) && old(pending[id]) == TurnDoor
    {
      hide Sound, Permutation;
      SoundTick(Now(), Fired(id));
      var why := pending[id];
      ghost var game := Now().SetBy(id);
      pending := pending - {id};
      if why.TurnDoor? {
        SetTimer(GameDone, game);
      } else {
        started := false;
        timer := None;
      }
    }

    method PlayerLeft(ageEmpty: bool)
      requires Valid()
      modifies this`started
      ensures Valid() && View() == Play(old(View()), Left(ageEmpty))
    {
      if ageEmpty {
        started := false;
      }
    }

    /** Any run of the game. */
    method Run(ops: seq<Op>)
      requires Valid() && View() == NewRound && OpsOk(ops)
      modifies this, order
      ensures Valid() && View() == PlayAll(ops)
    {
      hide RoundOk, Play, HitEvent;
      assert ops[..0] == [];
      for i := 0 to |ops|
        invariant Valid() && View() == PlayAll(ops[..i])
      {
        assert ops[..i + 1][..i] == ops[..i];
        match ops[i] {
          case Start(data) => StartGame(data);
          case Hit(cloth) => var _ := HitCloth(cloth);
          case Fire(id) =>
            if id in pending {
              HandleTimeout(id);
            } else {
              NoSuchTimer(View(), id);
            }
          case Left(ageEmpty) => PlayerLeft(ageEmpty);
        }
      }
      assert ops[..|ops|] == ops;
    }
  }

  lemma NoSuchTimer(r: Round, id: nat)
    requires RoundOk(r) && id !in r.clock.pending
    ensures Play(r, Fire(id)) == r
  {
  }

  lemma StartedClean(c: Clock)
    requires Sound(c)
    ensures StartsClean(c) <==> if c.started then c.pending.Keys <= {c.timer.value} else c.pending == map[]
  {
    if c.started {
      LostStartsClean(c);
    }
  }

  /** A game is won, another is begun, and the first one's timer and its successor end it. */
  method TimerOfWonGameEndsTheNext(data: seq<U16>) returns (game: Game, won: bool, ghost before: Clock)
    requires |data| >= CLOTHS
    ensures game.Valid() && won && game.games == 2 && !game.started
    ensures before.started && before.games == 2 && before.SetBy(2) == 1 && EndsAnother(before, Fired(2))
    ensures game.Now() == Tick(before, Fired(2))
  {
    hide Sound, Permutation, Ranks, RoundOk;
    game := new Game();
    game.StartGame(data);
    won := false;
    for i := 0 to CLOTHS
      invariant game.Valid() && fresh(game) && fresh(game.order) && game.next == i
      invariant (game.started <==> i < CLOTHS) && (won <==> i == CLOTHS)
      invariant game.pending == map[0 := TurnDoor] && game.timerCt == 1 && game.games == 1 && game.setBy == map[0 := 1]
    {
      won := game.HitCloth(game.order[i]);
    }
    game.StartGame(data);
    assert game.pending == map[0 := TurnDoor, 1 := TurnDoor];
    game.HandleTimeout(0);
    before := game.Now();
    game.HandleTimeout(2);
  }
}

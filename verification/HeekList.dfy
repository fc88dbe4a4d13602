/** The list of Sitters at the Heek table: who is found in it again, and who is forgotten although
    still in the age, because the head of the list is erased whoever leaves. */
module HeekList {
  import opened Wire
  import opened Heek
  import opened HeekSafety
  import opened HeekRounds

  // ---------- What steps do to the list ----------

  /** The same Sitters, listed and not. */
  predicate SameList(t: Table, t': Table) {
    && t'.known == t.known && |t'.roster| == |t.roster|
    && forall id | 0 <= id < |t.roster| ::
         t'.roster[id].ki == t.roster[id].ki && t'.roster[id].freed == t.roster[id].freed
  }

  lemma SameThen(t: Table, mid: Table, t': Table)
    requires SameList(t, mid) && SameList(mid, t')
    ensures SameList(t, t')
  {
  }

  lemma WithSame(t: Table, i: nat, p: Player)
    requires Shape(t) && i < SEATS && Sits(t, i) && p.ki == At(t, i).ki && p.freed == At(t, i).freed
    ensures SameList(t, With(t, i, p)) && forall n :: SameList(t, With(t, i, p).(pendingCt := n))
  {
  }

  lemma SameItself(t: Table)
    ensures SameList(t, t)
  {
  }

  lemma {:induction false} NoChoicesSame(t: Table, i: nat)
    requires Shape(t) && i <= SEATS
    ensures SameList(t, NoChoices(t, i))
    decreases SEATS - i
  {
    if i < SEATS {
      NoChoicesSame(if Sits(t, i) then With(t, i, At(t, i).(choice := -1)) else t, i + 1);
    }
  }

  lemma {:induction false} CreditSame(t: Table, n: Tally, best: int, i: nat)
    requires Shape(t) && i <= SEATS
    ensures SameList(t, CreditAll(t, n, best, i).0)
    decreases SEATS - i
  {
    hide WinsRound, SameList;
    if i == SEATS {
      SameItself(t);
    } else if Sits(t, i) && WinsRound(At(t, i), n, best) {
      ChoseToWin(At(t, i), n, best);
      var p := Credit(At(t, i));
      var q := if p.wins[p.choice] > 2 && t.pendingCt == 0 then p.(pending := true) else p;
      WithSame(t, i, q);
      CreditSame(With(t, i, q), n, best, i + 1);
      SameThen(t, With(t, i, q), CreditAll(t, n, best, i).0);
    } else {
      CreditSame(t, n, best, i + 1);
    }
  }

  lemma ChoseToWin(p: Player, n: Tally, best: int)
    requires WinsRound(p, n, best)
    ensures p.choice >= 0
  {
  }

  lemma {:induction false} DropSame(t: Table, most: nat, i: nat)
    requires Shape(t) && i <= SEATS
    ensures SameList(t, DropBehind(t, most, i).0)
    decreases SEATS - i
  {
    hide RoundsWon, SameList;
    if i == SEATS {
      SameItself(t);
    } else if Sits(t, i) && At(t, i).pending && RoundsWon(At(t, i)) != most && (t.pendingCt == 0 || t.pendingCt >= 2) {
      var t1 := With(t, i, At(t, i).(pending := false));
      var t2 := if t.pendingCt == 0 then t1 else t1.(pendingCt := t.pendingCt - 1);
      WithSame(t, i, At(t, i).(pending := false));
      DropSame(t2, most, i + 1);
      SameThen(t, t2, DropBehind(t, most, i).0);
    } else {
      DropSame(t, most, i + 1);
    }
  }

  lemma {:induction false} PaySame(t: Table, i: nat)
    requires Shape(t) && i <= SEATS
    ensures SameList(t, PayWinner(t, i))
    decreases SEATS - i
  {
    if i < SEATS && !(Sits(t, i) && At(t, i).pending) {
      PaySame(t, i + 1);
    }
  }

  lemma {:induction false} NoFlagsSame(t: Table, i: nat)
    requires Shape(t) && i <= SEATS
    ensures SameList(t, NoFlags(t, i))
    decreases SEATS - i
  {
    if i < SEATS {
      NoFlagsSame(if Sits(t, i) && At(t, i).pending then With(t, i, At(t, i).(pending := false)) else t, i + 1);
    }
  }

  lemma RoundSame(t: Table)
    requires Shape(t)
    ensures SameList(t, Round(t))
  {
    hide Number, Best, CreditAll, DropBehind, PayWinner, MostWon;
    var n := Count(t);
    var best := Best(t, n, 0, -5);
    var (t1, w) := CreditAll(t, n, best, 0);
    var (t2, winners) := Candidates(t1, w);
    CreditSame(t, n, best, 0);
    DropSame(t1, MostWon(t1, 0, 0), 0);
    PaySame(t2.(pendingCt := 0), 0);
  }

  lemma ChooseSame(t: Table, ki: nat, choice: nat)
    requires Shape(t)
    ensures SameList(t, Choose(t, ki, choice))
  {
    hide NoChoices, SeatOf, Number;
    var t1 := if t.phase.Idle? then ResetGame(t.(phase := InGame)) else t;
    NoChoicesSame(t1.(phase := Countdown, choiceCt := 0), 0);
    var t2 := StartCountdown(t);
    if t.sittingCt >= 2 && t2.phase.Countdown? && choice <= 2 {
      var seat := SeatOf(t2, ki, 0);
      if seat.Some? {
        RegisterMeans(t2, seat.value, choice);
      }
    }
  }

  /** Sitting down for the first time, or after having been forgotten, makes a new Sitter. */
  predicate Enlists(t: Table, e: Event)
    requires Shape(t) && Proper(t, e)
  {
    e.PlayGame? && t.sittingCt < SEATS && !Sits(t, e.position) && Find(t, e.ki, 0).None?
  }

  /** Every step at once: the list loses its head when somebody leaves the age, gets a new Sitter at its
      end, and is left alone by everything else. */
  lemma ListAfter(t: Table, e: Event)
    requires Shape(t) && Proper(t, e)
    ensures
      var t' := Step(t, e);
      && t'.known == (if e.PlayerLeft? && t.known != [] then t.known[1..] else t.known)
                     + (if Enlists(t, e) then [|t.roster|] else [])
      && |t'.roster| == |t.roster| + (if Enlists(t, e) then 1 else 0)
      && (Enlists(t, e) ==> t'.roster[|t.roster|] == NewPlayer(e.ki, e.score))
      && forall id | 0 <= id < |t.roster| ::
           && t'.roster[id].ki == t.roster[id].ki
           && (t'.roster[id].freed <==> t.roster[id].freed || (e.PlayerLeft? && Frees(t, e.ki, id)))
  {
    hide Choose, Sit, Leave, LeaveAge, TimeUp, AnimationOver, SeatOf, Find;
    match e {
      case PlayGame(ki, position, score) => SitList(t, ki, position, score);
      case MakeChoice(ki, choice) => ChooseSame(t, ki, choice);
      case LeaveGame(ki) => LeaveSame(t, ki);
      case PlayerLeft(ki) => LeaveAgeList(t, ki);
      case Finished(byOwner, anim) => TimersSame(t);
      case Timeout => TimersSame(t);
    }
  }

  lemma SitList(t: Table, ki: nat, position: nat, score: int)
    requires Shape(t) && position < SEATS
    ensures
      var t' := Sit(t, ki, position, score);
      if t.sittingCt < SEATS && !Sits(t, position) && Find(t, ki, 0).None? then
        t'.roster == t.roster + [NewPlayer(ki, score)] && t'.known == t.known + [|t.roster|]
      else SameList(t, t')
  {
    hide Find;
  }

  lemma TimersSame(t: Table)
    requires Shape(t)
    ensures SameList(t, TimeUp(t)) && forall anim :: SameList(t, AnimationOver(t, anim))
  {
    hide Round, NoFlags;
    RoundSame(t);
    NoFlagsSame(t, 0);
  }

  lemma LeaveSame(t: Table, ki: nat)
    requires Shape(t)
    ensures SameList(t, Leave(t, ki))
  {
    hide SeatOf;
  }

  lemma LeaveAgeList(t: Table, ki: nat)
    requires Shape(t)
    ensures
      var t' := LeaveAge(t, ki);
      && t'.known == (if t.known != [] then t.known[1..] else t.known) && |t'.roster| == |t.roster|
      && forall id | 0 <= id < |t.roster| ::
           && t'.roster[id].ki == t.roster[id].ki
           && (t'.roster[id].freed <==> t.roster[id].freed || Frees(t, ki, id))
  {
    hide SeatOf, Depart, Forget;
    var seat := SeatOf(t, ki, 0);
    if seat.Some? {
      DepartSame(t, seat.value);
    }
    ForgetList(if seat.Some? then Depart(t, seat.value) else t, ki);
  }

  lemma DepartSame(t: Table, i: nat)
    requires Shape(t) && i < SEATS && Sits(t, i)
    ensures SameList(t, Depart(t, i))
  {
  }

  lemma ForgetList(t: Table, ki: nat)
    requires Shape(t)
    ensures
      var t' := Forget(t, ki);
      && t'.known == (if t.known != [] then t.known[1..] else t.known) && |t'.roster| == |t.roster|
      && forall id | 0 <= id < |t.roster| ::
           && t'.roster[id].ki == t.roster[id].ki
           && (t'.roster[id].freed <==> t.roster[id].freed || Frees(t, ki, id))
  {
  }

  /** The Sitter that is freed when a player leaves the age: the player's own, if it is the head. */
  predicate Frees(t: Table, ki: nat, id: nat)
    requires Shape(t) && id < |t.roster|
  {
    t.known != [] && id == t.known[0] && t.roster[id].ki == ki
  }

  // ---------- Nobody is listed twice ----------

  predicate Distinct(t: Table)
    requires Shape(t)
  {
    forall a, b | 0 <= a < b < |t.known| :: t.roster[t.known[a]].ki != t.roster[t.known[b]].ki
  }

  lemma {:induction false} FindNobody(t: Table, ki: nat, k: nat)
    requires Shape(t) && k <= |t.known|
    ensures Find(t, ki, k).None? <==> forall a | k <= a < |t.known| :: t.roster[t.known[a]].ki != ki
    decreases |t.known| - k
  {
    if k < |t.known| {
      FindNobody(t, ki, k + 1);
    }
  }

  lemma DistinctStep(t: Table, e: Event)
    requires Shape(t) && Distinct(t) && Proper(t, e)
    ensures Distinct(Step(t, e))
  {
    hide Step, Find;
    ListAfter(t, e);
    if Enlists(t, e) {
      FindNobody(t, e.ki, 0);
    }
  }

  /** In any run the Sitters listed belong to different players. */
  lemma {:induction false} DistinctRun(t: Table, es: seq<Event>)
    requires Shape(t) && Distinct(t) && ProperRun(t, es)
    ensures Distinct(Run(t, es))
    decreases |es|
  {
    hide Step, Distinct;
    if es != [] {
      DistinctStep(t, es[0]);
      DistinctRun(Step(t, es[0]), es[1..]);
    }
  }

  // ---------- Sitting down again ----------

  /** A request that is not ignored. */
  predicate TakesSeat(t: Table, ki: nat, position: nat)
    requires Shape(t)
  {
    position < SEATS && t.sittingCt < SEATS && !Sits(t, position) && SeatOf(t, ki, 0).None?
  }

  lemma FindListed(t: Table, ki: nat, id: nat)
    requires Shape(t) && Distinct(t) && id in t.known && id < |t.roster| && t.roster[id].ki == ki
    ensures Find(t, ki, 0) == Some(id)
  {
    hide Find;
    FindNobody(t, ki, 0);
    var a :| 0 <= a < |t.known| && t.known[a] == id;
    var found := Find(t, ki, 0).value;
    var b :| 0 <= b < |t.known| && t.known[b] == found;
    assert a == b;
  }

  /** A player of the current game takes up the same Sitter, with the score it has and no other, exactly
      if that Sitter is still listed; and then no points are brought. */
  lemma SitsAgain(t: Table, ki: nat, position: nat, id: nat)
    requires Good(t) && Distinct(t) && TakesSeat(t, ki, position)
    requires id < |t.roster| && t.roster[id].ki == ki && t.roster[id].game == t.game
    ensures (forall score :: KeepsScore(t, ki, position, id, score)) <==> id in t.known
    ensures id in t.known ==> forall score :: SitGain(t, ki, position, score) == 0
  {
    hide Find;
    if id in t.known {
      FindListed(t, ki, id);
    } else {
      assert !KeepsScore(t, ki, position, id, 0);
    }
  }

  predicate KeepsScore(t: Table, ki: nat, position: nat, id: nat, score: int)
    requires Shape(t) && position < SEATS && id < |t.roster|
  {
    var t' := Sit(t, ki, position, score);
    t'.seats[position] == Some(id) && t'.roster[id].score == t.roster[id].score && SitGain(t, ki, position, score) == 0
  }

  /** The player has a Sitter of the current game, and it is listed. */
  predicate PaidAndListed(t: Table, ki: nat)
    requires Shape(t)
  {
    exists id :: id in t.known && 0 <= id < |t.roster| && t.roster[id].ki == ki && t.roster[id].game == t.game
  }

  /** Exactly such a player cannot bring points, whatever score is claimed. */
  lemma BringsExactly(t: Table, ki: nat, position: nat)
    requires Shape(t) && Distinct(t) && TakesSeat(t, ki, position)
    ensures (forall score :: SitGain(t, ki, position, score) == 0) <==> PaidAndListed(t, ki)
  {
    hide Find;
    var found := Find(t, ki, 0);
    if PaidAndListed(t, ki) {
      var id :| id in t.known && 0 <= id < |t.roster| && t.roster[id].ki == ki && t.roster[id].game == t.game;
      FindListed(t, ki, id);
    } else {
      var score := if found.None? then 1 else t.roster[found.value].score + 1;
      assert SitGain(t, ki, position, score) != 0;
    }
  }

  // ---------- Over runs ----------

  function Leavers(es: seq<Event>): nat {
    if es == [] then 0 else (if es[0].PlayerLeft? then 1 else 0) + Leavers(es[1..])
  }

  lemma {:induction false} GoneForGood(t: Table, es: seq<Event>, id: nat)
    requires Shape(t) && ProperRun(t, es) && id < |t.roster| && id !in t.known
    ensures id < |Run(t, es).roster| && id !in Run(t, es).known
    ensures Run(t, es).roster[id].freed == t.roster[id].freed && Run(t, es).roster[id].ki == t.roster[id].ki
    decreases |es|
  {
    hide Step, Enlists;
    if es != [] {
      ListAfter(t, es[0]);
      GoneForGood(Step(t, es[0]), es[1..], id);
    }
  }

  /** The Sitter at position p of the list is still listed after a run exactly if no more than p players
      have left the age, whoever they were. */
  lemma {:induction false} ListedExactly(t: Table, es: seq<Event>, p: nat)
    requires Good(t) && ProperRun(t, es) && p < |t.known|
    ensures t.known[p] in Run(t, es).known <==> Leavers(es) <= p
    decreases |es|
  {
    hide Step, Enlists, Apart, RosterOk, PlayersOk, PotOk, CountersOk;
    if es != [] {
      var e, t1, id := es[0], Step(t, es[0]), t.known[p];
      ListAfter(t, e);
      GoodStep(t, e);
      if !e.PlayerLeft? {
        assert t1.known[p] == id;
        ListedExactly(t1, es[1..], p);
      } else if p > 0 {
        assert t1.known[p - 1] == id;
        ListedExactly(t1, es[1..], p - 1);
      } else {
        GoneForGood(t1, es[1..], id);
      }
    }
  }

  /** Every Sitter of a player who is still in the age is listed. */
  predicate AllListed(t: Table) { forall id | 0 <= id < |t.roster| && !t.roster[id].freed :: id in t.known }

  /** Whoever leaves the age is the head of the list, or there is none. */
  predicate Fair(t: Table, e: Event)
    requires Shape(t)
  {
    e.PlayerLeft? && t.known != [] ==> t.roster[t.known[0]].ki == e.ki
  }

  ghost predicate FairRun(t: Table, es: seq<Event>)
    requires Shape(t) && ProperRun(t, es)
    decreases |es|
  {
    es == [] || (Fair(t, es[0]) && FairRun(Step(t, es[0]), es[1..]))
  }

  /** After a run all Sitters in use are listed exactly if everyone who left was the head of the list;
      one who was not makes it forget somebody for good. */
  lemma {:induction false} AllListedExactly(t: Table, es: seq<Event>)
    requires Good(t) && AllListed(t) && ProperRun(t, es)
    ensures AllListed(Run(t, es)) <==> FairRun(t, es)
    decreases |es|
  {
    hide Step, Apart, RosterOk, PlayersOk, PotOk, CountersOk, Enlists;
    if es != [] {
      var e, t1 := es[0], Step(t, es[0]);
      ListAfter(t, e);
      GoodStep(t, e);
      if Fair(t, e) {
        FairKeeps(t, e);
        AllListedExactly(t1, es[1..]);
      } else {
        var id := t.known[0];
        assert !t1.roster[id].freed && id !in t1.known;
        GoneForGood(t1, es[1..], id);
      }
    }
  }

  lemma FairKeeps(t: Table, e: Event)
    requires Good(t) && AllListed(t) && Proper(t, e) && Fair(t, e)
    ensures AllListed(Step(t, e))
  {
    hide Step, Apart, RosterOk, PlayersOk, PotOk, CountersOk, Enlists;
    ListAfter(t, e);
    var t1 := Step(t, e);
    forall id | 0 <= id < |t1.roster| && !t1.roster[id].freed ensures id in t1.known {
      if id < |t.roster| {
        var a :| 0 <= a < |t.known| && t.known[a] == id;
        if e.PlayerLeft? {
          assert a > 0 && t.known[1..][a - 1] == id;
        }
      }
    }
  }

  /** The player has a Sitter in use that has paid into the current game. */
  predicate HasPaid(t: Table, ki: nat) {
    exists id :: 0 <= id < |t.roster| && t.roster[id].ki == ki && !t.roster[id].freed && t.roster[id].game == t.game
  }

  /** In any run, from an empty table say, in which everyone who left was the head of the list, nobody who
      has paid brings points by sitting down again; so too in every run in which nobody leaves the age. */
  lemma PaidBringNothing(t: Table, es: seq<Event>, ki: nat, position: nat, score: int)
    requires Good(t) && Distinct(t) && AllListed(t) && ProperRun(t, es) && (FairRun(t, es) || Leavers(es) == 0)
    requires TakesSeat(Run(t, es), ki, position) && HasPaid(Run(t, es), ki)
    ensures Gain(Run(t, es), PlayGame(ki, position, score)) == 0
  {
    hide Run, SitGain, Distinct, Find, Step, ProperRun, FairRun, TakesSeat, AllListed, HasPaid, PaidAndListed;
    hide Apart, RosterOk, NoneFreed, PlayersOk, PotOk, CountersOk;
    if Leavers(es) == 0 {
      NobodyLeaves(t, es);
    }
    DistinctRun(t, es);
    AllListedExactly(t, es);
    PaidIsListed(Run(t, es), ki);
    BringsExactly(Run(t, es), ki, position);
    GainOfSitting(Run(t, es), ki, position, score);
  }

  lemma GainOfSitting(t: Table, ki: nat, position: nat, score: int)
    requires Shape(t) && TakesSeat(t, ki, position)
    ensures Gain(t, PlayGame(ki, position, score)) == SitGain(t, ki, position, score)
  {
  }

  lemma PaidIsListed(t: Table, ki: nat)
    requires Shape(t) && AllListed(t) && HasPaid(t, ki)
    ensures PaidAndListed(t, ki)
  {
  }

  lemma NobodyListed()
    ensures Distinct(Start) && AllListed(Start)
  {
  }

  lemma {:induction false} NobodyLeaves(t: Table, es: seq<Event>)
    requires Shape(t) && ProperRun(t, es) && Leavers(es) == 0
    ensures FairRun(t, es)
    decreases |es|
  {
    hide Step;
    if es != [] {
      NobodyLeaves(Step(t, es[0]), es[1..]);
    }
  }

  // ---------- A player who pays twice ----------

  const Visit: seq<Event> :=
    [PlayGame(1, 0, 5), PlayGame(2, 1, 5), PlayGame(3, 2, 5), MakeChoice(1, 0), PlayerLeft(2), LeaveGame(1)]

  function Sitter(ki: nat, score: int, choice: Choice, game: nat): Player {
    Player(ki, score, choice, NO_WINS, game, false, false)
  }

  /** Three sit down; the first pays and chooses, the second leaves the age, and the first gets up. */
  const Forgotten := Table(
    Countdown, 1, 1, [Sitter(1, 4, -1, 1), Sitter(2, 5, -1, 0), Sitter(3, 5, -1, 0)], [1, 2],
    [None, None, Some(2), None, None], 1, 0, 0)

  lemma {:induction false} SeatIs(t: Table, ki: nat, i: nat, from: nat)
    requires Shape(t) && from <= i < SEATS && Sits(t, i) && At(t, i).ki == ki
    requires forall j | from <= j < i && Sits(t, j) :: At(t, j).ki != ki
    ensures SeatOf(t, ki, from) == Some(i)
    decreases i - from
  {
    if from < i {
      SeatIs(t, ki, i, from + 1);
    }
  }

  lemma {:induction false} NothingChosen(t: Table, i: nat)
    requires Shape(t) && i <= SEATS && forall j | 0 <= j < SEATS && Sits(t, j) :: At(t, j).choice == -1
    ensures NoChoices(t, i) == t
    decreases SEATS - i
  {
    if i < SEATS {
      if Sits(t, i) {
        assert t.roster[t.seats[i].value := At(t, i).(choice := -1)] == t.roster;
      }
      NothingChosen(t, i + 1);
    }
  }

  /** The table while they come and go. */
  function Visitors(roster: seq<Player>, known: seq<nat>, seats: seq<Option<nat>>, sitting: nat): Table {
    Table(Idle, 0, 0, roster, known, seats, sitting, 0, 0)
  }

  const First: Table := Visitors([Sitter(1, 5, -1, 0)], [0], [Some(0), None, None, None, None], 1)
  const Second: Table :=
    Visitors([Sitter(1, 5, -1, 0), Sitter(2, 5, -1, 0)], [0, 1], [Some(0), Some(1), None, None, None], 2)
  const Third: Table :=
    Visitors([Sitter(1, 5, -1, 0), Sitter(2, 5, -1, 0), Sitter(3, 5, -1, 0)], [0, 1, 2],
             [Some(0), Some(1), Some(2), None, None], 3)
  const Chosen: Table :=
    Table(Countdown, 1, 1, [Sitter(1, 4, 0, 1), Sitter(2, 5, -1, 0), Sitter(3, 5, -1, 0)], [0, 1, 2],
          [Some(0), Some(1), Some(2), None, None], 3, 1, 0)
  const Without2: Table := Chosen.(known := [1, 2], seats := [Some(0), None, Some(2), None, None], sittingCt := 2)

  /** A newcomer sits down. */
  lemma Comes(t: Table, ki: nat, position: nat, score: int)
    requires Shape(t) && TakesSeat(t, ki, position) && forall k | 0 <= k < |t.known| :: t.roster[t.known[k]].ki != ki
    ensures Proper(t, PlayGame(ki, position, score))
    ensures Step(t, PlayGame(ki, position, score))
            == t.(roster := t.roster + [NewPlayer(ki, score)], known := t.known + [|t.roster|],
                  seats := t.seats[position := Some(|t.roster|)], sittingCt := t.sittingCt + 1)
  {
    hide SeatOf, Find;
    FindNobody(t, ki, 0);
  }

  lemma TheyCome()
    ensures Proper(Start, Visit[0]) && Step(Start, Visit[0]) == First
    ensures Proper(First, Visit[1]) && Step(First, Visit[1]) == Second
    ensures Proper(Second, Visit[2]) && Step(Second, Visit[2]) == Third
  {
    hide Step, Find;
    Comes(Start, 1, 0, 5);
    Comes(First, 2, 1, 5);
    Comes(Second, 3, 2, 5);
  }

  lemma FirstChooses()
    ensures Step(Third, MakeChoice(1, 0)) == Chosen
  {
    hide SeatOf, NoChoices;
    var t1 := Third.(phase := Countdown, game := 1, pool := 0, choiceCt := 0);
    NothingChosen(t1, 0);
    assert StartCountdown(Third) == t1;
    SeatIs(t1, 1, 0, 0);
    assert Register(t1, 0, 0) == Chosen;
  }

  lemma SecondLeavesAge()
    ensures Step(Chosen, PlayerLeft(2)) == Without2
  {
    hide SeatOf;
    SeatIs(Chosen, 2, 1, 0);
    assert Depart(Chosen, 1) == Without2.(known := [0, 1, 2]);
  }

  lemma FirstGetsUp()
    ensures Step(Without2, LeaveGame(1)) == Forgotten
  {
    hide SeatOf;
    SeatIs(Without2, 1, 0, 0);
    assert Depart(Without2, 0) == Forgotten;
  }

  lemma RunsOn(t: Table, e: Event, es: seq<Event>)
    requires Shape(t) && es != [] && es[0] == e && Proper(t, e) && ProperRun(Step(t, e), es[1..])
    ensures ProperRun(t, es) && Run(t, es) == Run(Step(t, e), es[1..])
  {
    hide Step;
  }

  lemma RunsOut(t: Table)
    requires Shape(t)
    ensures ProperRun(t, []) && Run(t, []) == t
  {
  }

  lemma VisitEnds()
    ensures ProperRun(Start, Visit) && Run(Start, Visit) == Forgotten
  {
    hide Step, ProperRun, Run, SeatOf;
    TheyCome();
    FirstChooses();
    SecondLeavesAge();
    FirstGetsUp();
    assert forall k | 0 <= k < 6 :: Visit[k..][1..] == Visit[k + 1..];
    assert Visit[0..] == Visit && Visit[6..] == [];
    RunsOut(Forgotten);
    RunsOn(Without2, Visit[5], Visit[5..]);
    RunsOn(Chosen, Visit[4], Visit[4..]);
    RunsOn(Third, Visit[3], Visit[3..]);
    RunsOn(Second, Visit[2], Visit[2..]);
    RunsOn(First, Visit[1], Visit[1..]);
    RunsOn(Start, Visit[0], Visit[0..]);
  }

  /** The first is back at the table, with a new Sitter; and after choosing. */
  function Back(score: int): Table {
    Forgotten.(roster := Forgotten.roster + [Sitter(1, score, -1, 0)], known := [1, 2, 3],
               seats := [Some(3), None, Some(2), None, None], sittingCt := 2)
  }

  function Twice(score: int): Table {
    Back(score).(roster := Forgotten.roster + [Sitter(1, score - 1, 0, 1)], pool := 2, choiceCt := 1)
  }

  /** After that visit the first player has paid and is no longer listed: sitting down again with any
      score brings all of it, and the next choice in the same game costs a point again. */
  lemma PaysTwice(score: int)
    ensures ProperRun(Start, Visit) && Run(Start, Visit) == Forgotten
    ensures HasPaid(Forgotten, 1) && !PaidAndListed(Forgotten, 1) && TakesSeat(Forgotten, 1, 0)
    ensures SitGain(Forgotten, 1, 0, score) == score
    ensures Sit(Forgotten, 1, 0, score) == Back(score) && Choose(Back(score), 1, 0) == Twice(score)
  {
    hide ProperRun, Run, SeatOf, Choose, Find;
    VisitEnds();
    assert Forgotten.roster[0].ki == 1;
    ForgottenSits();
    FindNobody(Forgotten, 1, 0);
    Again(score);
  }

  lemma ForgottenSits()
    ensures TakesSeat(Forgotten, 1, 0)
  {
  }

  lemma Again(score: int)
    ensures Choose(Back(score), 1, 0) == Twice(score)
  {
    hide SeatOf, NoChoices;
    SeatIs(Back(score), 1, 0, 0);
    assert StartCountdown(Back(score)) == Back(score);
    assert Register(Back(score), 0, 0) == Twice(score);
  }
}

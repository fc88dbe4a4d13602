/** Who has chosen what at the Heek table, who wins a round and the game, and who is paid, from the
    messages that came. */
module HeekChoices {
  import opened Wire
  import opened Heek
  import opened HeekSafety
  import opened HeekRounds
  import opened HeekList

  // ---------- One choice ----------

  /** Choices count when two are seated and no round is being played out. */
  predicate Listening(t: Table) {
    t.sittingCt >= 2 && (t.phase.Idle? || t.phase.InGame? || t.phase.Countdown?)
  }

  function GameNow(t: Table): nat { if t.phase.Idle? then t.game + 1 else t.game }

  /** When a countdown begins, whatever was chosen before is gone. */
  function Asked(t: Table, p: Player): Player { if t.phase.Countdown? then p else p.(choice := -1) }

  /** The first choice in a game costs a point, and one begins without rounds won. */
  function Paying(p: Player, game: nat): Player {
    if p.game == game then p else p.(game := game, score := p.score - 1, wins := [0, 0, 0], pending := false)
  }

  /** Everyone who is seated has chosen. */
  predicate AllChose(t: Table)
    requires Shape(t)
  {
    forall j | 0 <= j < SEATS && Sits(t, j) :: At(t, j).choice >= 0
  }

  lemma AllChoseCounts(t: Table)
    requires Shape(t)
    ensures AllChose(t) <==> Number(t, Chose, 0) >= Number(t, Occupied, 0)
  {
    AllFrom(t, 0);
  }

  lemma {:induction false} AllFrom(t: Table, i: nat)
    requires Shape(t) && i <= SEATS
    ensures (forall j | i <= j < SEATS && Sits(t, j) :: At(t, j).choice >= 0)
            <==> Number(t, Chose, i) >= Number(t, Occupied, i)
    ensures Number(t, Chose, i) <= Number(t, Occupied, i)
    decreases SEATS - i
  {
    if i < SEATS {
      AllFrom(t, i + 1);
    }
  }

  /** The table when a countdown has begun. */
  predicate Begun(t: Table, t': Table)
    requires Shape(t)
  {
    && Shape(t') && t'.seats == t.seats && t'.known == t.known && |t'.roster| == |t.roster|
    && t'.sittingCt == t.sittingCt && t'.game == GameNow(t) && t'.pool == (if t.phase.Idle? then 0 else t.pool)
    && t'.phase.Countdown?
    && (forall j | 0 <= j < SEATS && Sits(t, j) :: At(t', j) == Asked(t, At(t, j)))
    && (forall id | 0 <= id < |t.roster| && !AtTable(t, id) :: t'.roster[id] == t.roster[id])
  }

  lemma CountdownBegins(t: Table)
    requires Good(t) && Listening(t)
    ensures Begun(t, StartCountdown(t)) && Good(StartCountdown(t))
  {
    hide Number, PlayersOk, RosterOk, PotOk, CountersOk, NoneFreed, NoChoices, AtTable;
    GoodCountdown(t);
    var t1 := if t.phase.Idle? then ResetGame(t.(phase := InGame)) else t;
    if !t.phase.Countdown? {
      var t2 := t1.(phase := Countdown, choiceCt := 0);
      SameSeats(t, t2);
      NoChoicesMeans(t2, 0);
      var t' := NoChoices(t2, 0);
      assert StartCountdown(t) == t';
      assert Shape(t');
      forall j | 0 <= j < SEATS && Sits(t, j) ensures Sits(t', j) && At(t', j) == At(t, j).(choice := -1) {
        assert Sits(t2, j) && At(t2, j) == At(t, j);
      }
    }
  }

  /** A choice of a seated player is recorded as it was sent, and nobody else's is touched. */
  lemma ChoiceTaken(t: Table, i: nat, c: nat)
    requires Good(t) && Listening(t) && i < SEATS && Sits(t, i) && c <= 2
    ensures
      var p, t' := At(t, i), Step(t, MakeChoice(At(t, i).ki, c));
      && t'.seats == t.seats && t'.known == t.known && |t'.roster| == |t.roster| && t'.game == GameNow(t)
      && At(t', i) == Paying(p, GameNow(t)).(choice := c)
      && (forall j | 0 <= j < SEATS && j != i && Sits(t, j) :: At(t', j) == Asked(t, At(t, j)))
      && (forall id | 0 <= id < |t.roster| && !AtTable(t, id) :: t'.roster[id] == t.roster[id])
      && t'.pool == (if t.phase.Idle? then 0 else t.pool) + (if p.game == GameNow(t) then 0 else 1)
      && t'.phase == if AllChose(t') then StopWait else Countdown
  {
    hide Number, NoChoices, AtTable, RosterOk, PlayersOk, PotOk, NoneFreed, StartCountdown, SeatOf, AllChose, Apart;
    var t1 := StartCountdown(t);
    CountdownBegins(t);
    SameSeat(t, t1, i);
    SeatFound(t1, i);
    var t' := Register(t1, i, c);
    GoodRegister(t1, i, c);
    RegisterMeans(t1, i, c);
    ChangeKeeps(t1, t', i, Chooser(At(t1, i), t1.game, c));
    SeatedIs(t1, i);
    AllChoseCounts(t');
    SameAtTable(t, t1);
  }

  lemma SameAtTable(t: Table, t': Table)
    requires Shape(t) && Shape(t') && t'.seats == t.seats && |t'.roster| == |t.roster|
    ensures forall id | 0 <= id < |t.roster| :: AtTable(t', id) <==> AtTable(t, id)
  {
  }

  lemma SameSeat(t: Table, t': Table, i: nat)
    requires Shape(t) && Begun(t, t') && i < SEATS && Sits(t, i)
    ensures Sits(t', i) && At(t', i) == Asked(t, At(t, i)) && At(t', i).ki == At(t, i).ki
  {
  }

  lemma SeatFound(t: Table, i: nat)
    requires Shape(t) && Apart(t) && i < SEATS && Sits(t, i)
    ensures SeatOf(t, At(t, i).ki, 0) == Some(i)
  {
    var found := SeatOf(t, At(t, i).ki, 0);
    if found.Some? {
      assert found.value == i;
    }
  }

  /** Any other choice is not recorded; if it comes between rounds a countdown begins all the same. */
  lemma ChoiceIgnored(t: Table, ki: nat, c: nat)
    requires Good(t)
    requires !Listening(t) || c > 2 || forall j | 0 <= j < SEATS && Sits(t, j) :: At(t, j).ki != ki
    ensures
      var t' := Step(t, MakeChoice(ki, c));
      if Listening(t) && !t.phase.Countdown? then Begun(t, t') else t' == t
  {
    hide Number, NoChoices, AtTable, RosterOk, PlayersOk, PotOk, NoneFreed, Begun;
    if Listening(t) {
      CountdownBegins(t);
      var t1 := StartCountdown(t);
      Nobody(t, t1, ki);
    }
  }

  lemma Nobody(t: Table, t': Table, ki: nat)
    requires Shape(t) && Begun(t, t')
    ensures (forall j | 0 <= j < SEATS && Sits(t, j) :: At(t, j).ki != ki) ==> SeatOf(t', ki, 0).None?
    ensures t'.phase.Countdown?
  {
    var found := SeatOf(t', ki, 0);
    if found.Some? {
      assert Sits(t, found.value) && At(t', found.value).ki == At(t, found.value).ki;
    }
  }

  // ---------- Choices over runs ----------

  /** What a player has chosen after one more message, who had chosen before. */
  function Told(t: Table, ki: nat, was: Choice, e: Event): Choice {
    match e
    case MakeChoice(k, c) =>
      if !Listening(t) then was
      else if k == ki && c <= 2 then c
      else if t.phase.Countdown? then was else -1
    case PlayGame(k, _, _) => if k == ki then -1 else was
    case _ => was
  }

  /** Choices of those who stay are as they were told; those who sit down have none. */
  predicate AsTold(t: Table, e: Event, t': Table, i: nat)
    requires Shape(t) && Shape(t') && i < SEATS && Sits(t', i)
  {
    var p := At(t', i);
    if Sits(t, i) then At(t, i).ki == p.ki && p.choice == Told(t, p.ki, At(t, i).choice, e)
    else e.PlayGame? && e.ki == p.ki && p.choice == -1
  }

  lemma ChoiceAfter(t: Table, e: Event, i: nat)
    requires Good(t) && Proper(t, e) && i < SEATS && Sits(Step(t, e), i)
    ensures AsTold(t, e, Step(t, e), i)
  {
    hide Number, NoneFreed, PlayersOk, PotOk, Apart, RosterOk, CountersOk, AsTold;
    hide Choose, Sit, Leave, LeaveAge, TimeUp, AnimationOver, SeatOf, Find;
    match e {
      case PlayGame(ki, position, score) => SitTold(t, ki, position, score, i);
      case MakeChoice(ki, choice) => ChooseTold(t, ki, choice, i);
      case LeaveGame(ki) => LeaveTold(t, ki, i);
      case PlayerLeft(ki) => LeaveAgeTold(t, ki, i);
      case Finished(byOwner, anim) => TimersTold(t, e, i);
      case Timeout => TimersTold(t, e, i);
    }
  }

  lemma SitTold(t: Table, ki: nat, position: nat, score: int, i: nat)
    requires Good(t) && position < SEATS && SeatOf(t, ki, 0).None? && i < SEATS
    requires Sits(Sit(t, ki, position, score), i)
    ensures AsTold(t, PlayGame(ki, position, score), Sit(t, ki, position, score), i)
  {
    hide Number, NoneFreed, PlayersOk, PotOk, RosterOk, CountersOk, SeatOf, Apart;
    var t' := Sit(t, ki, position, score);
    if t.sittingCt < SEATS && !Sits(t, position) {
      var id := SitArrives(t, ki, position, score);
      ArrivalSeats(t, t', position, id);
    }
    if Sits(t, i) {
      NotSeated(t, ki, i);
    }
  }

  lemma NotSeated(t: Table, ki: nat, i: nat)
    requires Shape(t) && SeatOf(t, ki, 0).None? && i < SEATS && Sits(t, i)
    ensures At(t, i).ki != ki
  {
  }

  lemma ChooseTold(t: Table, ki: nat, c: nat, i: nat)
    requires Good(t) && i < SEATS && Sits(Step(t, MakeChoice(ki, c)), i)
    ensures AsTold(t, MakeChoice(ki, c), Step(t, MakeChoice(ki, c)), i)
  {
    hide Number, Good, Step, SeatOf, AllChose;
    GoodParts(t);
    if Listening(t) && c <= 2 && exists j :: 0 <= j < SEATS && Sits(t, j) && At(t, j).ki == ki {
      var j :| 0 <= j < SEATS && Sits(t, j) && At(t, j).ki == ki;
      ChoiceTaken(t, j, c);
      assert i != j ==> At(t, i).ki != ki by {
        SeatsApart(t, i, j);
      }
    } else {
      ChoiceIgnored(t, ki, c);
    }
  }

  lemma GoodParts(t: Table)
    requires Good(t)
    ensures Shape(t) && Apart(t)
  {
  }

  lemma SeatsApart(t: Table, i: nat, j: nat)
    requires Shape(t) && Apart(t) && i < SEATS && j < SEATS
    ensures i != j && Sits(t, i) && Sits(t, j) ==> At(t, i).ki != At(t, j).ki
  {
  }

  lemma DepartTold(t: Table, k: nat, i: nat)
    requires Good(t) && k < SEATS && Sits(t, k) && i < SEATS && Sits(Depart(t, k), i)
    ensures Sits(t, i) && At(Depart(t, k), i) == At(t, i)
  {
    hide Number, NoneFreed, PlayersOk, PotOk, RosterOk, CountersOk;
    SeatsApart(t, i, k);
  }

  lemma LeaveTold(t: Table, ki: nat, i: nat)
    requires Good(t) && i < SEATS && Sits(Leave(t, ki), i)
    ensures AsTold(t, LeaveGame(ki), Leave(t, ki), i)
  {
    hide Number, NoneFreed, PlayersOk, PotOk, RosterOk, CountersOk, SeatOf;
    var seat := SeatOf(t, ki, 0);
    if seat.Some? {
      SeatsApart(t, i, seat.value);
    }
  }

  lemma LeaveAgeTold(t: Table, ki: nat, i: nat)
    requires Good(t) && i < SEATS && Sits(LeaveAge(t, ki), i)
    ensures AsTold(t, PlayerLeft(ki), LeaveAge(t, ki), i)
  {
    hide Number, Apart, NoneFreed, PlayersOk, PotOk, RosterOk, CountersOk, SeatOf, Depart;
    var seat := SeatOf(t, ki, 0);
    if seat.Some? {
      DepartTold(t, seat.value, i);
    }
  }

  /** Rounds, flags and points may change, but no choice. */
  predicate SameChoices(t: Table, t': Table)
    requires Shape(t)
  {
    && Shape(t') && t'.seats == t.seats
    && forall j | 0 <= j < SEATS && Sits(t, j) ::
         Sits(t', j) && At(t', j).ki == At(t, j).ki && At(t', j).choice == At(t, j).choice
  }

  lemma RoundsSameChoices(t: Table, t': Table)
    requires Shape(t) && Apart(t) && OnlyRounds(t, t')
    ensures SameChoices(t, t') && Apart(t')
  {
    OnlyRoundsApart(t, t');
  }

  lemma TimersTold(t: Table, e: Event, i: nat)
    requires Good(t) && (e.Timeout? || e.Finished?) && i < SEATS && Sits(Step(t, e), i)
    ensures AsTold(t, e, Step(t, e), i)
  {
    hide Number, PlayersOk, PotOk, NoneFreed, RosterOk, CountersOk, Round, ShowWinner;
    if t.phase.StopWait? {
      RoundChoices(t);
    }
    WinnerChoices(t);
  }

  lemma WinnerChoices(t: Table)
    requires Shape(t) && Apart(t)
    ensures SameChoices(t, ShowWinner(t))
  {
    hide OnlyRounds, NoFlags;
    NoFlagsMeans(t, 0);
    RoundsSameChoices(t, NoFlags(t, 0));
  }

  lemma RoundChoices(t: Table)
    requires Good(t) && t.phase.StopWait?
    ensures SameChoices(t, Round(t))
  {
    hide Number, CreditAll, Candidates, Settle, Best, Total, Wealth, PlayersOk, PotOk, NoneFreed, RosterOk, RunnersOk;
    hide SameChoices, OnlyRounds;
    var n := Count(t);
    if n.rocks + n.papers + n.scissors <= 1 {
      SameAll(t, t.(phase := InGame));
    } else {
      var best := Best(t, n, 0, -5);
      var (t1, w) := CreditAll(t, n, best, 0);
      var (t2, winners) := Candidates(t1, w);
      CandidatesMean(t, n, best);
      RoundsSameChoices(t, t2);
      SettleChoices(t2, winners);
      SameChoicesThen(t, t2, Settle(t2, winners));
    }
  }

  lemma SameAll(t: Table, t': Table)
    requires Shape(t) && t'.seats == t.seats && t'.roster == t.roster && t'.known == t.known
    ensures SameChoices(t, t')
  {
  }

  lemma SameChoicesThen(t: Table, mid: Table, t': Table)
    requires Shape(t) && Shape(mid) && SameChoices(t, mid) && SameChoices(mid, t')
    ensures SameChoices(t, t')
  {
  }

  lemma SettleChoices(t: Table, winners: nat)
    requires Shape(t) && Apart(t) && (winners == 1 ==> Number(t, Flagged, 0) == 1)
    ensures SameChoices(t, Settle(t, winners))
  {
    hide Number, PayWinner;
    var t3 := t.(pendingCt := 0);
    if winners == 1 {
      SameSeats(t, t3);
      var k := PayWinnerMeans(t3, 0);
      ChangeKeeps(t3, PayWinner(t3, 0), k, At(t3, k).(score := At(t3, k).score + t3.pool));
    }
  }

  /** The last choice that counted, since the player sat down and since the countdown began. */
  function LastTold(t: Table, ki: nat, was: Choice, es: seq<Event>): Choice
    requires Shape(t) && ProperRun(t, es)
    decreases |es|
  {
    if es == [] then was else LastTold(Step(t, es[0]), ki, Told(t, ki, was, es[0]), es[1..])
  }

  predicate ChoiceOf(t: Table, ki: nat, c: Choice)
    requires Shape(t)
  {
    forall j | 0 <= j < SEATS && Sits(t, j) && At(t, j).ki == ki :: At(t, j).choice == c
  }

  /** In any run every player at the table holds the last choice that was sent and counted. */
  lemma {:induction false} ChoicesOfRun(t: Table, es: seq<Event>, ki: nat, was: Choice)
    requires Good(t) && ProperRun(t, es) && ChoiceOf(t, ki, was)
    ensures ChoiceOf(Run(t, es), ki, LastTold(t, ki, was, es))
    decreases |es|
  {
    hide Number, PlayersOk, PotOk, NoneFreed, RosterOk, CountersOk, Apart, Step, Told, ChoiceOf;
    if es != [] {
      GoodStep(t, es[0]);
      ChoiceNext(t, es[0], ki, was);
      ChoicesOfRun(Step(t, es[0]), es[1..], ki, Told(t, ki, was, es[0]));
    }
  }

  lemma ChoiceNext(t: Table, e: Event, ki: nat, was: Choice)
    requires Good(t) && Proper(t, e) && ChoiceOf(t, ki, was)
    ensures ChoiceOf(Step(t, e), ki, Told(t, ki, was, e))
  {
    hide Number, PlayersOk, PotOk, NoneFreed, RosterOk, CountersOk, Apart, Step;
    var t' := Step(t, e);
    forall j | 0 <= j < SEATS && Sits(t', j) && At(t', j).ki == ki ensures At(t', j).choice == Told(t, ki, was, e) {
      ChoiceAfter(t, e, j);
    }
  }

  // ---------- Rounds ----------

  /** The player wins more duels than are lost, and does so better than, or as well as, everyone else. */
  predicate DoesBest(t: Table, i: nat)
    requires Shape(t)
  {
    && i < SEATS && Sits(t, i) && At(t, i).choice >= 0 && Duels(t, At(t, i).choice, 0) > 0
    && forall j | 0 <= j < SEATS && Sits(t, j) && At(t, j).choice >= 0 ::
         Duels(t, At(t, j).choice, 0) <= Duels(t, At(t, i).choice, 0)
  }

  /** Rounds won with each choice, this one included. */
  function WinsNow(t: Table, i: nat): Wins
    requires Shape(t) && i < SEATS && Sits(t, i)
  {
    var w, c := At(t, i).wins, At(t, i).choice;
    if DoesBest(t, i) then w[c := w[c] + 1] else w
  }

  function AllWins(w: Wins): nat { w[0] + w[1] + w[2] }

  predicate SuddenDeath(t: Table)
    requires Shape(t)
  {
    exists j :: 0 <= j < SEATS && Sits(t, j) && At(t, j).pending
  }

  /** Who can win the game with this round: after a draw only those who drew, else who wins a third
      round with this choice. */
  predicate CanWin(t: Table, i: nat)
    requires Shape(t) && i < SEATS
  {
    && Sits(t, i)
    && if SuddenDeath(t) then At(t, i).pending
       else DoesBest(t, i) && WinsNow(t, i)[At(t, i).choice] >= 3
  }

  /** Of these, those with the most rounds stay in the running. */
  predicate Stays(t: Table, i: nat)
    requires Shape(t) && i < SEATS
  {
    && CanWin(t, i)
    && forall j | 0 <= j < SEATS && CanWin(t, j) :: AllWins(WinsNow(t, j)) <= AllWins(WinsNow(t, i))
  }

  predicate WinsGame(t: Table, i: nat)
    requires Shape(t)
  {
    i < SEATS && Stays(t, i) && forall j | 0 <= j < SEATS && Stays(t, j) :: j == i
  }

  lemma WinsRoundMeans(t: Table, j: nat)
    requires Shape(t) && j < SEATS && Sits(t, j)
    ensures WinsRound(At(t, j), Count(t), Best(t, Count(t), 0, -5)) <==> DoesBest(t, j)
  {
    hide Number, Duels, Total, Best, Count;
    var n := Count(t);
    BestIsBest(t, n, 0, -5);
    forall k | 0 <= k < SEATS && Sits(t, k) && At(t, k).choice >= 0
      ensures Total(n, At(t, k).choice) == Duels(t, At(t, k).choice, 0)
    {
      TotalsAreDuels(t, At(t, k).choice);
    }
  }

  lemma DeathCounts(t: Table)
    requires Good(t) && t.phase.StopWait?
    ensures SuddenDeath(t) <==> t.pendingCt > 0
  {
    hide Number, PlayersOk, PotOk, NoneFreed, RosterOk, Apart;
    if t.pendingCt > 0 {
      var j := NumberWitness(t, Flagged, 0);
    } else if j :| 0 <= j < SEATS && Sits(t, j) && At(t, j).pending {
      assert HeekSafety.Bit(t, Flagged, j) == 1;
      NumberPositive(t, Flagged, j, 0);
    }
  }

  /** The player as credited. */
  lemma CreditedRaw(t: Table, j: nat)
    requires Good(t) && t.phase.StopWait? && j < SEATS && Sits(t, j)
    ensures Credited(At(t, j), Count(t), Best(t, Count(t), 0, -5), t.pendingCt == 0)
            == At(t, j).(wins := WinsNow(t, j), pending := CanWin(t, j))
  {
    hide Number, PlayersOk, PotOk, NoneFreed, RosterOk, Apart, DoesBest, Best, Count, CountersOk, SuddenDeath;
    WinsRoundMeans(t, j);
    DeathCounts(t);
    NotInDeath(t, j);
    BestChose(t, j);
  }

  lemma BestChose(t: Table, j: nat)
    requires Shape(t)
    ensures DoesBest(t, j) ==> j < SEATS && Sits(t, j) && At(t, j).choice >= 0
  {
  }

  lemma NotInDeath(t: Table, j: nat)
    requires Shape(t) && j < SEATS && Sits(t, j)
    ensures !SuddenDeath(t) ==> !At(t, j).pending
  {
  }

  /** Everybody has the rounds won, and those who satisfy the condition are in the running. */
  ghost predicate Rated(t: Table, t': Table, running: set<nat>)
    requires Shape(t)
  {
    && Shape(t') && t'.seats == t.seats && |t'.roster| == |t.roster|
    && forall j: nat | j < SEATS && Sits(t, j) ::
         At(t', j) == At(t, j).(wins := WinsNow(t, j), pending := j in running)
  }

  ghost function Able(t: Table): set<nat>
    requires Shape(t)
  {
    set j: nat | j < SEATS && CanWin(t, j)
  }

  ghost function Staying(t: Table): set<nat>
    requires Shape(t)
  {
    set j: nat | j < SEATS && Stays(t, j)
  }

  lemma CreditedAllRaw(t: Table)
    requires Good(t) && t.phase.StopWait?
    ensures
      var n := Count(t);
      Rated(t, CreditAll(t, n, Best(t, n, 0, -5), 0).0, Able(t))
  {
    hide Number, PlayersOk, PotOk, NoneFreed, RosterOk, Best, Count, CountersOk, CanWin, WinsNow, CreditAll, Credited;
    var n := Count(t);
    var best := Best(t, n, 0, -5);
    CreditAllMeans(t, n, best, 0);
    forall j: nat | j < SEATS && Sits(t, j)
      ensures At(CreditAll(t, n, best, 0).0, j) == At(t, j).(wins := WinsNow(t, j), pending := j in Able(t))
    {
      CreditedRaw(t, j);
    }
  }

  lemma CandidatesRaw(t: Table)
    requires Good(t) && t.phase.StopWait?
    ensures
      var n := Count(t);
      var (t1, w) := CreditAll(t, n, Best(t, n, 0, -5), 0);
      var (t2, winners) := Candidates(t1, w);
      Rated(t, t2, Staying(t)) && Counted(t, t2, winners)
  {
    hide Number, PlayersOk, PotOk, NoneFreed, RosterOk, Best, Count, CanWin, WinsNow, CreditAll, RoundsWon;
    hide DropBehind, MostWon, Rated, Able, Staying, Counted, OnlyRounds;
    var n := Count(t);
    var best := Best(t, n, 0, -5);
    var (t1, w) := CreditAll(t, n, best, 0);
    CandidatesMean(t, n, best);
    CreditedAllRaw(t);
    CreditAllMeans(t, n, best, 0);
    OnlyRoundsApart(t, t1);
    CreditedRunners(t, t1, n, best);
    CreditedNumber(t, t1, n, best);
    if w == 1 && t1.pendingCt == 0 {
      OneIsLevel(t1);
      AtMostOneStays(t, t1);
    } else if w > 0 || t1.pendingCt > 0 {
      var most := MostWon(t1, 0, 0);
      MostWonMeans(t1, 0, 0);
      SomeTop(t1, most);
      DropBehindMeans(t1, most, 0, 0);
      var t2 := DropBehind(t1, most, 0).0;
      OnlyRoundsApart(t1, t2);
      DroppedStay(t, t1, t2, most);
    } else {
      OneIsLevel(t1);
      AtMostOneStays(t, t1);
    }
  }

  lemma AtMostOneStays(t: Table, t1: Table)
    requires Shape(t) && Rated(t, t1, Able(t))
    requires forall j, k | 0 <= j < k < SEATS && Sits(t1, j) && Sits(t1, k) :: !(At(t1, j).pending && At(t1, k).pending)
    ensures Rated(t, t1, Staying(t))
  {
    hide CanWin, WinsNow;
    forall j: nat | j < SEATS && Sits(t, j) ensures j in Able(t) <==> j in Staying(t) {
      if j in Able(t) {
        forall k | 0 <= k < SEATS && CanWin(t, k)
          ensures Sits(t, k) && AllWins(WinsNow(t, k)) <= AllWins(WinsNow(t, j))
        {
          CanWinSits(t, k);
          assert k in Able(t) && At(t1, k).pending && At(t1, j).pending;
        }
      }
    }
  }

  lemma CanWinSits(t: Table, k: nat)
    requires Shape(t) && k < SEATS && CanWin(t, k)
    ensures Sits(t, k)
  {
  }

  lemma DroppedStay(t: Table, t1: Table, t2: Table, most: nat)
    requires Shape(t) && Rated(t, t1, Able(t)) && Shape(t2) && t2.seats == t.seats && |t2.roster| == |t.roster|
    requires forall j | 0 <= j < SEATS && Sits(t1, j) :: At(t2, j) == Dropped(At(t1, j), most)
    requires Top(t1, most, 0)
    requires forall j | 0 <= j < SEATS && Sits(t1, j) && At(t1, j).pending :: RoundsWon(At(t1, j)) <= most
    ensures Rated(t, t2, Staying(t))
  {
    hide CanWin, WinsNow;
    forall j: nat | j < SEATS && CanWin(t, j)
      ensures Sits(t, j) && At(t1, j).pending && RoundsWon(At(t1, j)) == AllWins(WinsNow(t, j))
    {
      CanWinSits(t, j);
      assert j in Able(t);
    }
    var top :| 0 <= top < SEATS && Sits(t1, top) && At(t1, top).pending && RoundsWon(At(t1, top)) == most;
    assert top in Able(t);
    forall j: nat | j < SEATS && Sits(t, j)
      ensures At(t2, j) == At(t, j).(wins := WinsNow(t, j), pending := j in Staying(t))
    {
      assert Sits(t1, j);
    }
  }

  // ---------- What a round comes to ----------

  predicate TwoChose(t: Table)
    requires Shape(t)
  {
    exists i, j :: 0 <= i < j < SEATS && Sits(t, i) && Sits(t, j) && At(t, i).choice >= 0 && At(t, j).choice >= 0
  }

  lemma TwoCounts(t: Table)
    requires Shape(t)
    ensures TwoChose(t) <==> Number(t, Chose, 0) >= 2
  {
    hide Number;
    if i, j :| 0 <= i < j < SEATS && Sits(t, i) && Sits(t, j) && At(t, i).choice >= 0 && At(t, j).choice >= 0 {
      assert HeekSafety.Bit(t, Chose, i) == 1 && HeekSafety.Bit(t, Chose, j) == 1;
      NumberTwo(t, Chose, i, j, 0);
    }
    if Number(t, Chose, 0) >= 2 {
      var i, j := TwoWitness(t, 0);
    }
  }

  lemma {:induction false} TwoWitness(t: Table, from: nat) returns (i: nat, j: nat)
    requires Shape(t) && from <= SEATS && Number(t, Chose, from) >= 2
    ensures from <= i < j < SEATS && Sits(t, i) && Sits(t, j) && At(t, i).choice >= 0 && At(t, j).choice >= 0
    decreases SEATS - from
  {
    if Sits(t, from) && At(t, from).choice >= 0 {
      i := from;
      j := NumberWitness(t, Chose, from + 1);
    } else {
      i, j := TwoWitness(t, from + 1);
    }
  }

  /** A countdown that runs out is followed by a round exactly if two have chosen. */
  lemma CountdownEnds(t: Table)
    requires Good(t) && t.phase.Countdown?
    ensures Step(t, Timeout) == t.(phase := if TwoChose(t) then StopWait else InGame)
  {
    TwoCounts(t);
  }

  /** Everything that is at stake in a round.  If two have chosen, those who do best are credited, those
      who can win and have won most stay in the running, and if that is one player the whole pot is paid
      to that player. */
  predicate Played(t: Table, t': Table)
    requires Shape(t)
  {
    && Shape(t') && t'.seats == t.seats && t'.known == t.known && |t'.roster| == |t.roster|
    && t'.game == t.game && t'.sittingCt == t.sittingCt
    && (forall id | 0 <= id < |t.roster| && !AtTable(t, id) :: t'.roster[id] == t.roster[id])
    && (forall j | 0 <= j < SEATS && Sits(t, j) ::
          At(t', j) == At(t, j).(wins := WinsNow(t, j), pending := Stays(t, j),
                                 score := At(t, j).score + if WinsGame(t, j) then t.pool else 0))
    && (if exists j :: 0 <= j < SEATS && WinsGame(t, j) then t'.phase.Winner? && t'.pool == 0
        else t'.phase.AnimWait? && t'.pool == t.pool)
  }

  lemma RoundExactly(t: Table)
    requires Good(t) && t.phase.StopWait?
    ensures
      var t' := Step(t, Timeout);
      if TwoChose(t) then Played(t, t') else t' == t.(phase := InGame)
  {
    hide Number, CreditAll, Candidates, Settle, Best, Total, Counted, PlayersOk, PotOk, NoneFreed, RosterOk, Played;
    hide Rated, Staying;
    var n := Count(t);
    SumByChoice(t, n, 0);
    TwoCounts(t);
    if TwoChose(t) {
      var best := Best(t, n, 0, -5);
      var (t1, w) := CreditAll(t, n, best, 0);
      var (t2, winners) := Candidates(t1, w);
      CandidatesRaw(t);
      SettledRaw(t, t2, winners);
    }
  }

  lemma SettledRaw(t: Table, t2: Table, winners: nat)
    requires Shape(t) && Rated(t, t2, Staying(t)) && Counted(t, t2, winners)
    ensures Played(t, Settle(t2, winners))
  {
    hide Number, Stays, WinsNow, PayWinner, RunnersOk, Rated, Played, OnlyRounds, WinsGame, Staying;
    var t' := Settle(t2, winners);
    if winners == 1 {
      var t3 := t2.(pendingCt := 0);
      SameSeats(t2, t3);
      var k := PayWinnerMeans(t3, 0);
      assert forall j | 0 <= j < SEATS && Sits(t2, j) :: Sits(t3, j) && At(t2, j) == At(t3, j);
      OnlyOne(t, t2, k);
      PaidExactly(t, t2, t', k);
    } else {
      NotOne(t, t2, winners);
      UnpaidExactly(t, t2, t');
    }
  }

  lemma UnpaidExactly(t: Table, t2: Table, t': Table)
    requires Shape(t) && Shape(t2) && Rated(t, t2, Staying(t)) && OnlyRounds(t, t2)
    requires t2 == t.(roster := t2.roster, pendingCt := t2.pendingCt)
    requires t' == t2.(phase := AnimWait, pendingCt := t'.pendingCt)
    requires forall j | 0 <= j < SEATS :: !WinsGame(t, j)
    ensures Played(t, t')
  {
    hide Stays, WinsNow, WinsGame;
    forall j: nat | j < SEATS && Sits(t, j) ensures Sits(t', j) && (j in Staying(t) <==> Stays(t, j)) {
      assert Sits(t2, j) && At(t', j) == At(t2, j);
    }
  }

  lemma OnlyOne(t: Table, t2: Table, k: nat)
    requires Shape(t) && Rated(t, t2, Staying(t)) && k < SEATS && Sits(t2, k) && At(t2, k).pending
    requires forall j | 0 <= j < SEATS && j != k && Sits(t2, j) :: !At(t2, j).pending
    ensures WinsGame(t, k) && forall j | 0 <= j < SEATS && j != k :: !WinsGame(t, j)
  {
    hide CanWin, WinsNow;
    forall j | 0 <= j < SEATS && Stays(t, j) ensures j == k {
      CanWinSits(t, j);
      assert j in Staying(t);
    }
    assert k in Staying(t);
  }

  lemma PaidExactly(t: Table, t2: Table, t': Table, k: nat)
    requires Shape(t) && Shape(t2) && Apart(t2) && Rated(t, t2, Staying(t)) && OnlyRounds(t, t2)
    requires t2 == t.(roster := t2.roster, pendingCt := t2.pendingCt) && k < SEATS && Sits(t2, k)
    requires t' == With(t2, k, At(t2, k).(score := At(t2, k).score + t.pool)).(pool := 0, pendingCt := 0,
        phase := Winner)
    requires WinsGame(t, k) && forall j | 0 <= j < SEATS && j != k :: !WinsGame(t, j)
    ensures Played(t, t')
  {
    hide Stays, WinsNow, WinsGame;
    var p := At(t2, k).(score := At(t2, k).score + t.pool);
    ChangeKeeps(t2, t', k, p);
    SeatedIs(t2, k);
    SameAtTable(t, t2);
    forall j: nat | j < SEATS && Sits(t, j) ensures Sits(t2, j) && (j in Staying(t) <==> Stays(t, j)) {
    }
  }

  lemma NotOne(t: Table, t2: Table, winners: nat)
    requires Shape(t) && Rated(t, t2, Staying(t)) && Shape(t2) && winners != 1
    requires winners == Number(t2, Flagged, 0)
    ensures forall j | 0 <= j < SEATS :: !WinsGame(t, j)
  {
    hide Number, CanWin, WinsNow;
    forall k | 0 <= k < SEATS ensures !WinsGame(t, k) {
      if WinsGame(t, k) {
        CanWinSits(t, k);
        assert k in Staying(t) && Sits(t2, k) && At(t2, k).pending;
        forall j | 0 <= j < SEATS && j != k && Sits(t2, j) ensures !At(t2, j).pending {
          assert j !in Staying(t);
        }
        NumberOne(t2, k, 0);
      }
    }
  }

  lemma {:induction false} NumberOne(t: Table, k: nat, from: nat)
    requires Shape(t) && from <= k < SEATS && Sits(t, k) && At(t, k).pending
    requires forall j | 0 <= j < SEATS && j != k && Sits(t, j) :: !At(t, j).pending
    ensures Number(t, Flagged, from) == 1
    decreases k - from
  {
    if from < k {
      NumberOne(t, k, from + 1);
    } else {
      NumberZero(t, Flagged, from + 1);
    }
  }

  // ---------- Timers ----------

  /** The animation that is waited for ends a wait as the timer does, if the owner says so. */
  lemma AnimationsAsTimers(t: Table)
    requires Good(t)
    ensures t.phase.StopWait? ==> Step(t, Finished(true, CountdownSeq)) == Step(t, Timeout)
    ensures t.phase.AnimWait? || t.phase.Winner? ==> Step(t, Finished(true, ChoiceSeq)) == Step(t, Timeout)
    ensures t.phase.WinWait? ==> Step(t, Finished(true, GameWinSeq)) == Step(t, Timeout)
    ensures forall anim :: Step(t, Finished(false, anim)) == t
  {
    hide Good, Round, ShowWinner, Shape;
  }

  /** When the winner has been shown nobody is in the running, and nothing else has changed. */
  lemma WinnerShown(t: Table)
    requires Good(t) && t.phase.Winner?
    ensures
      var t' := Step(t, Timeout);
      && t'.phase.WinWait? && t'.seats == t.seats && t'.pool == t.pool && t'.game == t.game
      && forall j | 0 <= j < SEATS && Sits(t, j) :: At(t', j) == At(t, j).(pending := false)
  {
    hide Number, PlayersOk, PotOk, NoneFreed, RosterOk, CountersOk, OnlyRounds, NoFlags;
    NoFlagsMeans(t, 0);
  }

  function Timeouts(t: Table, n: nat): (t': Table)
    requires Shape(t)
    ensures Shape(t')
    decreases n
  {
    if n == 0 then t else Timeouts(Step(t, Timeout), n - 1)
  }

  lemma TimeoutsNext(t: Table, n: nat)
    requires Shape(t)
    ensures Timeouts(t, n + 1) == Timeouts(Step(t, Timeout), n) && Timeouts(t, 0) == t
  {
    hide Step;
  }

  /** Timers alone bring every table back to where players may choose: between games exactly if the round
      has been or is going to be won, or nobody was playing. */
  lemma TimersSettle(t: Table)
    requires Good(t)
    ensures
      var t' := Timeouts(t, 4);
      && (t'.phase.Idle? || t'.phase.InGame?)
      && (t'.phase.Idle? <==>
            || t.phase.Idle? || t.phase.Winner? || t.phase.WinWait?
            || ((t.phase.StopWait? || t.phase.Countdown?) && GoingToWin(t.(phase := StopWait))))
  {
    hide Number, Apart, PlayersOk, PotOk, NoneFreed, RosterOk, CountersOk, Step, Timeouts, GoingToWin, TwoChose;
    TimersStep(t);
    var t1 := Step(t, Timeout);
    GoodStep(t, Timeout);
    TimersStep(t1);
    var t2 := Step(t1, Timeout);
    GoodStep(t1, Timeout);
    TimersStep(t2);
    var t3 := Step(t2, Timeout);
    GoodStep(t2, Timeout);
    TimersStep(t3);
    TimeoutsNext(t, 3);
    TimeoutsNext(t1, 2);
    TimeoutsNext(t2, 1);
    TimeoutsNext(t3, 0);
    TimeoutsNext(Step(t3, Timeout), 0);
  }

  /** Two have chosen, and one player will be alone in the running. */
  predicate GoingToWin(t: Table)
    requires Shape(t)
  {
    TwoChose(t) && exists j :: 0 <= j < SEATS && WinsGame(t, j)
  }

  lemma TimersStep(t: Table)
    requires Good(t)
    ensures
      var t' := Step(t, Timeout);
      match t.phase
      case Countdown =>
        && (t'.phase.StopWait? || t'.phase.InGame?)
        && (t'.phase.StopWait? ==> t' == t.(phase := StopWait))
        && (t'.phase.InGame? ==> !GoingToWin(t.(phase := StopWait)))
      case StopWait =>
        && (t'.phase.InGame? || t'.phase.AnimWait? || t'.phase.Winner?) && (t'.phase.Winner? <==> GoingToWin(t))
        && t == t.(phase := StopWait)
      case AnimWait => t'.phase.InGame?
      case Winner => t'.phase.WinWait?
      case WinWait => t'.phase.Idle?
      case _ => t' == t
  {
    hide Number, Apart, PlayersOk, PotOk, NoneFreed, RosterOk, CountersOk, WinsGame;
    match t.phase {
      case Countdown =>
        CountdownEnds(t);
        SameChoosers(t, t.(phase := StopWait));
      case StopWait => RoundExactly(t);
      case _ =>
    }
  }

  lemma SameChoosers(t: Table, t': Table)
    requires Shape(t) && Shape(t') && t'.seats == t.seats && t'.roster == t.roster
    ensures TwoChose(t') ==> TwoChose(t)
  {
    if i, j :| 0 <= i < j < SEATS && Sits(t', i) && Sits(t', j) && At(t', i).choice >= 0 && At(t', j).choice >= 0 {
      assert Sits(t, i) && Sits(t, j) && At(t, i).choice >= 0 && At(t, j).choice >= 0;
    }
  }

  // ---------- Sitting down and getting up ----------

  /** Who sits down has no choice; whoever has paid and is listed has the points and rounds of before,
      and anyone else what they say and no rounds. */
  lemma SitsDown(t: Table, ki: nat, position: nat, score: int)
    requires Good(t) && Distinct(t) && TakesSeat(t, ki, position)
    ensures
      var t' := Step(t, PlayGame(ki, position, score));
      && Sits(t', position) && t'.sittingCt == t.sittingCt + 1
      && (forall j | 0 <= j < SEATS && j != position ::
            t'.seats[j] == t.seats[j] && (Sits(t, j) ==> At(t', j) == At(t, j)))
      && var p, id := At(t', position), t'.seats[position].value;
      && p.ki == ki && p.choice == -1 && !p.freed
      && if PaidAndListed(t, ki) then id in t.known && id < |t.roster| && p == t.roster[id].(choice := -1)
         else p.score == score && p.wins == [0, 0, 0] && !p.pending
  {
    hide Number, PlayersOk, PotOk, RosterOk, CountersOk, SeatOf, Find, Apart;
    var id := SitArrives(t, ki, position, score);
    ArrivalSeats(t, Sit(t, ki, position, score), position, id);
    FindNobody(t, ki, 0);
    if PaidAndListed(t, ki) {
      var k :| k in t.known && 0 <= k < |t.roster| && t.roster[k].ki == ki && t.roster[k].game == t.game;
      FindListed(t, ki, k);
    }
  }

  /** Nobody else is seated. */
  predicate Last(t: Table, i: nat)
    requires Shape(t)
  {
    i < SEATS && Sits(t, i) && forall j | 0 <= j < SEATS && j != i :: !Sits(t, j)
  }

  lemma LastCounts(t: Table, i: nat)
    requires Good(t) && i < SEATS && Sits(t, i)
    ensures Last(t, i) <==> t.sittingCt == 1
  {
    hide Number;
    assert HeekSafety.Bit(t, Occupied, i) == 1;
    if j :| 0 <= j < SEATS && j != i && Sits(t, j) {
      assert HeekSafety.Bit(t, Occupied, j) == 1;
      NumberTwo(t, Occupied, if i < j then i else j, if i < j then j else i, 0);
    } else {
      var seats := t.seats[i := None];
      var t' := t.(seats := seats);
      forall k | 0 <= k < SEATS ensures HeekSafety.Bit(t', Occupied, k) == 0 {
        assert k != i ==> !Sits(t, k);
      }
      NumberZero(t', Occupied, 0);
      NumberChanges(t, t', Occupied, i, 0);
    }
  }

  /** Getting up: the last player takes the pot along, and the game is over; from anyone else the table
      only loses the choice and the place in the running. */
  lemma GetsUp(t: Table, i: nat)
    requires Good(t) && i < SEATS && Sits(t, i)
    ensures
      var p, t' := At(t, i), Step(t, LeaveGame(At(t, i).ki));
      && t'.seats == t.seats[i := None] && t'.known == t.known
      && t'.roster == t.roster[t.seats[i].value := p.(choice := -1, pending := false,
                                                      score := p.score + if Last(t, i) then t.pool else 0)]
      && t'.pool == (if Last(t, i) then 0 else t.pool)
      && t'.game == (if Last(t, i) then t.game + 1 else t.game)
      && t'.phase == (if !Last(t, i) then t.phase else if t.phase.Countdown? then StopWait else Idle)
  {
    hide Number, PlayersOk, PotOk, RosterOk, NoneFreed, SeatOf, Last;
    LastCounts(t, i);
    SeatFound(t, i);
    var id, p := t.seats[i].value, At(t, i);
    assert t.roster[id := p.(score := p.score + t.pool)][id := p.(choice := -1, pending := false,
                                                                score := p.score + t.pool)]
           == t.roster[id := p.(choice := -1, pending := false, score := p.score + t.pool)];
  }

  /** A message from who is not seated, and a request for a seat that is taken, change no seat, no score
      and no phase; leaving the age still costs the list its head (HeekList.ListAfter). */
  lemma NothingElse(t: Table, ki: nat, position: nat, score: int)
    requires Good(t) && position < SEATS && forall j | 0 <= j < SEATS && Sits(t, j) :: At(t, j).ki != ki
    ensures Step(t, LeaveGame(ki)) == t
    ensures t.sittingCt >= 5 || Sits(t, position) ==> Step(t, PlayGame(ki, position, score)) == t
    ensures
      var t' := Step(t, PlayerLeft(ki));
      t' == t.(known := t'.known, roster := t'.roster)
      && |t'.roster| == |t.roster|
      && forall id | 0 <= id < |t.roster| :: t'.roster[id] == t.roster[id].(freed := t'.roster[id].freed)
  {
    hide Apart, PlayersOk, PotOk, NoneFreed, RosterOk, CountersOk, SeatOf;
    NobodyAt(t, ki);
  }

  lemma NobodyAt(t: Table, ki: nat)
    requires Shape(t) && forall j | 0 <= j < SEATS && Sits(t, j) :: At(t, j).ki != ki
    ensures SeatOf(t, ki, 0).None?
  {
    var found := SeatOf(t, ki, 0);
  }

  /** Leaving the age from the table: as getting up, but nobody takes the pot. */
  lemma LeavesAge(t: Table, i: nat)
    requires Good(t) && i < SEATS && Sits(t, i)
    ensures
      var p, id, t' := At(t, i), t.seats[i].value, Step(t, PlayerLeft(At(t, i).ki));
      && t'.seats == t.seats[i := None] && |t'.roster| == |t.roster|
      && (forall k | 0 <= k < |t.roster| ::
            t'.roster[k] == (if k == id then p.(choice := -1, pending := false) else t.roster[k]).(
                              freed := t'.roster[k].freed))
      && t'.pool == (if Last(t, i) then 0 else t.pool)
      && t'.game == (if Last(t, i) then t.game + 1 else t.game)
      && t'.phase == (if !Last(t, i) then t.phase else if t.phase.Countdown? then StopWait else Idle)
  {
    hide Number, PlayersOk, PotOk, RosterOk, NoneFreed, SeatOf, Last;
    LastCounts(t, i);
    SeatFound(t, i);
  }

  // ---------- A game for two ----------

  /** Players 1 and 2 are alone at the table. */
  predicate Duo(t: Table) {
    && Good(t) && t.seats == [Some(0), Some(1), None, None, None] && |t.roster| == 2 && t.sittingCt == 2
    && t.roster[0].ki == 1 && t.roster[1].ki == 2
  }

  lemma DuoSeats(t: Table)
    requires Duo(t)
    ensures Shape(t) && Sits(t, 0) && Sits(t, 1) && !Sits(t, 2) && !Sits(t, 3) && !Sits(t, 4)
    ensures At(t, 0) == t.roster[0] && At(t, 1) == t.roster[1]
  {
    hide Apart, PlayersOk, PotOk, NoneFreed, RosterOk, CountersOk;
  }

  lemma DuoDuels(t: Table, mine: Choice)
    requires Duo(t)
    ensures Duels(t, mine, 0) == Duel(mine, t.roster[0].choice) + Duel(mine, t.roster[1].choice)
  {
    hide Good, Duel;
    DuoSeats(t);
    assert Duels(t, mine, 5) == 0;
    assert Duels(t, mine, 4) == Duels(t, mine, 5);
    assert Duels(t, mine, 3) == Duels(t, mine, 4);
    assert Duels(t, mine, 2) == Duels(t, mine, 3);
    assert Duels(t, mine, 1) == Duel(mine, t.roster[1].choice) + Duels(t, mine, 2);
  }

  /** The first shows rock and the second scissors. */
  lemma BothChoose(t: Table)
    requires Duo(t) && (t.phase.Idle? || t.phase.InGame?)
    ensures
      var t' := Step(Step(t, MakeChoice(1, 0)), MakeChoice(2, 2));
      var g := GameNow(t);
      && Duo(t') && t'.phase.StopWait? && t'.game == g
      && t'.roster[0] == Paying(t.roster[0], g).(choice := 0)
      && t'.roster[1] == Paying(t.roster[1].(choice := -1), g).(choice := 2)
      && t'.pool == (if t.phase.Idle? then 0 else t.pool) + (if t.roster[0].game == g then 0 else 1)
                    + (if t.roster[1].game == g then 0 else 1)
  {
    hide Good, Step;
    DuoSeats(t);
    ChoiceTaken(t, 0, 0);
    var t1 := Step(t, MakeChoice(1, 0));
    GoodStep(t, MakeChoice(1, 0));
    StillDuo(t, t1);
    DuoSeats(t1);
    assert !AllChose(t1) by {
      assert At(t1, 1).choice == -1;
    }
    ChoiceTaken(t1, 1, 2);
    var t2 := Step(t1, MakeChoice(2, 2));
    GoodStep(t1, MakeChoice(2, 2));
    StillDuo(t1, t2);
    DuoSeats(t2);
    assert AllChose(t2);
  }

  lemma StillDuo(t: Table, t': Table)
    requires Duo(t) && Good(t') && t'.seats == t.seats && |t'.roster| == |t.roster|
    requires At(t', 0).ki == At(t, 0).ki && At(t', 1).ki == At(t, 1).ki
    ensures Duo(t')
  {
    hide Apart, PlayersOk, PotOk, NoneFreed, RosterOk, Number;
    forall j | 0 <= j < SEATS ensures HeekSafety.Bit(t', Occupied, j) == HeekSafety.Bit(t, Occupied, j) {
    }
    NumberSame(t, t', Occupied, 0);
  }

  /** Rock against scissors, with nobody in the running. */
  predicate RockOnce(t: Table) {
    && Duo(t) && t.phase.StopWait? && t.roster[0].choice == 0 && t.roster[1].choice == 2
    && !t.roster[0].pending && !t.roster[1].pending
  }

  lemma RockBest(t: Table)
    requires RockOnce(t)
    ensures Shape(t) && DoesBest(t, 0) && !DoesBest(t, 1) && !SuddenDeath(t) && TwoChose(t)
  {
    hide Good, Duels;
    DuoSeats(t);
    DuoDuels(t, 0);
    DuoDuels(t, 2);
    assert Sits(t, 0) && Sits(t, 1) && At(t, 0).choice >= 0 && At(t, 1).choice >= 0;
  }

  lemma RockStays(t: Table)
    requires RockOnce(t)
    ensures Shape(t) && forall j | 0 <= j < SEATS :: (Stays(t, j) <==> j == 0 && t.roster[0].wins[0] >= 2)
    ensures forall j | 0 <= j < SEATS :: (WinsGame(t, j) <==> j == 0 && t.roster[0].wins[0] >= 2)
  {
    hide Good, DoesBest, SuddenDeath, TwoChose;
    DuoSeats(t);
    RockBest(t);
    assert forall j | 0 <= j < SEATS :: CanWin(t, j) <==> j == 0 && t.roster[0].wins[0] >= 2;
  }

  /** Rock wins the round, and the third time the game. */
  lemma RockWins(t: Table)
    requires RockOnce(t)
    ensures
      var w, t' := t.roster[0].wins, Step(t, Timeout);
      var last := w[0] >= 2;
      && Duo(t') && t'.game == t.game && t'.phase == (if last then Winner else AnimWait)
      && t'.pool == (if last then 0 else t.pool)
      && t'.roster[0] == t.roster[0].(wins := w[0 := w[0] + 1], pending := last,
                                      score := t.roster[0].score + if last then t.pool else 0)
      && t'.roster[1] == t.roster[1]
  {
    hide Good, Step, Stays, WinsGame, DoesBest, SuddenDeath, TwoChose;
    DuoSeats(t);
    RockBest(t);
    RockStays(t);
    RoundExactly(t);
    var t' := Step(t, Timeout);
    GoodStep(t, Timeout);
    StillDuo(t, t');
    DuoSeats(t');
  }

  const Bout: seq<Event> := [MakeChoice(1, 0), MakeChoice(2, 2), Timeout, Timeout]

  lemma RunFirst(t: Table, e: Event, es: seq<Event>)
    requires Shape(t) && Proper(t, e) && ProperRun(Step(t, e), es)
    ensures ProperRun(t, [e] + es) && Run(t, [e] + es) == Run(Step(t, e), es)
  {
    hide Step, ProperRun, Run;
    assert ([e] + es)[1..] == es;
    RunsOn(t, e, [e] + es);
  }

  lemma BoutRun(t: Table)
    requires Shape(t)
    ensures ProperRun(t, Bout)
    ensures Run(t, Bout) == Step(Step(Step(Step(t, MakeChoice(1, 0)), MakeChoice(2, 2)), Timeout), Timeout)
  {
    hide Step, ProperRun, Run, Shape;
    var none: seq<Event> := [];
    var t1 := Step(t, MakeChoice(1, 0));
    var t2 := Step(t1, MakeChoice(2, 2));
    var t3 := Step(t2, Timeout);
    var t4 := Step(t3, Timeout);
    RunsOut(t4);
    RunFirst(t3, Timeout, none);
    RunFirst(t2, Timeout, [Timeout] + none);
    RunFirst(t1, MakeChoice(2, 2), [Timeout] + ([Timeout] + none));
    RunFirst(t, MakeChoice(1, 0), [MakeChoice(2, 2)] + ([Timeout] + ([Timeout] + none)));
    assert Bout == [MakeChoice(1, 0)] + ([MakeChoice(2, 2)] + ([Timeout] + ([Timeout] + none)));
  }

  /** What a bout comes to, for the first and the second, who may have to pay for it. */
  predicate BoutEnds(t: Table, t': Table)
    requires |t.roster| == 2 && |t'.roster| == 2
  {
    var g := GameNow(t);
    var p, q := Paying(t.roster[0], g).(choice := 0), Paying(t.roster[1].(choice := -1), g).(choice := 2);
    var pool := (if t.phase.Idle? then 0 else t.pool) + (if t.roster[0].game == g then 0 else 1)
                + (if t.roster[1].game == g then 0 else 1);
    var last := p.wins[0] >= 2;
    && t'.game == g && t'.phase == (if last then WinWait else InGame)
    && t'.pool == (if last then 0 else pool) && t'.roster[1] == q
    && t'.roster[0] == p.(wins := p.wins[0 := p.wins[0] + 1], score := p.score + if last then pool else 0)
  }

  lemma BoutMeans(t: Table)
    requires Duo(t) && (t.phase.Idle? || t.phase.InGame?)
    requires !t.roster[0].pending && !t.roster[1].pending
    ensures Shape(t) && ProperRun(t, Bout)
    ensures Duo(Run(t, Bout)) && BoutEnds(t, Run(t, Bout))
  {
    hide Step, Run, ProperRun, Good;
    DuoSeats(t);
    BoutRun(t);
    BothChoose(t);
    var t2 := Step(Step(t, MakeChoice(1, 0)), MakeChoice(2, 2));
    RockWins(t2);
    var t3 := Step(t2, Timeout);
    GoodStep(t3, Timeout);
    if t3.phase.Winner? {
      WinnerShown(t3);
      DuoSeats(t3);
      OnlyRoster(t3);
      StillDuo(t3, Step(t3, Timeout));
      DuoSeats(Step(t3, Timeout));
    } else {
      OnlyPhase(t3);
    }
  }

  lemma OnlyRoster(t: Table)
    requires Good(t) && t.phase.Winner?
    ensures |Step(t, Timeout).roster| == |t.roster|
  {
    hide OnlyRounds, NoFlags;
    NoFlagsMeans(t, 0);
    OnlyRoundsApart(t, NoFlags(t, 0));
  }

  lemma OnlyPhase(t: Table)
    requires Duo(t) && t.phase.AnimWait?
    ensures Step(t, Timeout) == t.(phase := InGame) && Duo(Step(t, Timeout))
  {
    hide Apart, PlayersOk, PotOk, NoneFreed, RosterOk, CountersOk;
    GoodPhase(t, InGame);
  }

  lemma {:induction false} RunThen(t: Table, a: seq<Event>, b: seq<Event>)
    requires Shape(t) && ProperRun(t, a) && ProperRun(Run(t, a), b)
    ensures ProperRun(t, a + b) && Run(t, a + b) == Run(Run(t, a), b)
    decreases |a|
  {
    hide Step;
    if a == [] {
      assert a + b == b;
    } else {
      assert (a + b)[1..] == a[1..] + b;
      RunThen(Step(t, a[0]), a[1..], b);
    }
  }

  const Opening: seq<Event> := [PlayGame(1, 0, 5), PlayGame(2, 1, 5)]

  lemma TwoSteps(t: Table, a: Event, b: Event)
    requires Shape(t) && Proper(t, a) && Proper(Step(t, a), b)
    ensures ProperRun(t, [a, b]) && Run(t, [a, b]) == Step(Step(t, a), b)
  {
    hide Step, ProperRun, Run, Shape, Proper;
    var none: seq<Event> := [];
    RunsOut(Step(Step(t, a), b));
    RunFirst(Step(t, a), b, none);
    RunFirst(t, a, [b] + none);
    assert [a] + ([b] + none) == [a, b];
  }

  lemma Opened()
    ensures ProperRun(Start, Opening) && Run(Start, Opening) == Second
  {
    hide Step, ProperRun, Run, Proper;
    TheyCome();
    TwoSteps(Start, PlayGame(1, 0, 5), PlayGame(2, 1, 5));
  }

  lemma GoodAfter(t: Table, e: Event, t': Table)
    requires Good(t) && Proper(t, e) && Step(t, e) == t'
    ensures Good(t')
  {
    hide Step, Good, Proper, Wealth, Gain;
    GoodStep(t, e);
  }

  lemma OpenedGood()
    ensures Duo(Second)
  {
    hide Step, Good, Proper, Wealth, Shape;
    TheyCome();
    GoodStart();
    GoodAfter(Start, PlayGame(1, 0, 5), First);
    GoodAfter(First, PlayGame(2, 1, 5), Second);
  }

  /** Two sit down with five points each, and the first wins three times with rock: both have paid a
      point, and the first has got both. */
  lemma AGameIsWon()
    ensures
      var es := Opening + Bout + Bout + Bout + [Timeout];
      && ProperRun(Start, es)
      && var t := Run(Start, es);
      && t.phase.Idle? && t.pool == 0 && |t.roster| == 2 && t.roster[0].score == 6 && t.roster[1].score == 4
  {
    hide Step, ProperRun, Run, Good;
    Opened();
    OpenedGood();
    BoutMeans(Second);
    var t1 := Run(Second, Bout);
    BoutMeans(t1);
    var t2 := Run(t1, Bout);
    BoutMeans(t2);
    var t3 := Run(t2, Bout);
    RunThen(Start, Opening, Bout);
    RunThen(Start, Opening + Bout, Bout);
    RunThen(Start, Opening + Bout + Bout, Bout);
    var t4 := Step(t3, Timeout);
    assert t4 == t3.(phase := Idle) by {
      IdleAgain(t3);
    }
    RunsOut(t4);
    RunFirst(t3, Timeout, []);
    assert [Timeout] + [] == [Timeout];
    RunThen(Start, Opening + Bout + Bout + Bout, [Timeout]);
  }

  lemma IdleAgain(t: Table)
    requires Shape(t) && t.phase.WinWait?
    ensures Step(t, Timeout) == t.(phase := Idle) && Proper(t, Timeout)
  {
  }
}

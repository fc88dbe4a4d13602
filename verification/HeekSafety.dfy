/** What every step at the Heek table keeps: counters count, points are neither made nor lost, and
    a won game pays the whole pot to one player. */
module HeekSafety {
  import opened Wire
  import opened Heek

  // ---------- The invariant ----------

  predicate Apart(t: Table)
    requires Shape(t)
  {
    forall i, j | 0 <= i < SEATS && 0 <= j < SEATS && i != j && Sits(t, i) && Sits(t, j) :: At(t, i).ki != At(t, j).ki
  }

  predicate AtTable(t: Table, id: nat)
    requires Shape(t)
  {
    exists i :: 0 <= i < SEATS && Sits(t, i) && t.seats[i].value == id
  }

  /** Those not at the table hold no choice and cannot win; nobody is ahead of the game. */
  predicate RosterOk(t: Table)
    requires Shape(t)
  {
    && (forall id | 0 <= id < |t.roster| && !AtTable(t, id) :: t.roster[id].choice == -1 && !t.roster[id].pending)
    && (forall id | 0 <= id < |t.roster| :: t.roster[id].game <= t.game)
    && (t.phase.Idle? || t.game > 0)
  }

  /** No freed Sitter is ever used again. */
  predicate NoneFreed(t: Table)
    requires Shape(t)
  {
    && (forall a, b | 0 <= a < b < |t.known| :: t.known[a] != t.known[b])
    && (forall a | 0 <= a < |t.known| :: !t.roster[t.known[a]].freed)
    && (forall i | 0 <= i < SEATS && Sits(t, i) :: !At(t, i).freed)
  }

  predicate ThreeOfAKind(p: Player) { exists c :: 0 <= c < 3 && p.wins[c] > 2 }

  /** Whoever has chosen or is in the running has paid.  Those in the running have won three rounds
      with one choice, and all the same number of rounds. */
  predicate PlayersOk(t: Table)
    requires Shape(t)
  {
    && (forall i | 0 <= i < SEATS && Sits(t, i) && At(t, i).pending :: ThreeOfAKind(At(t, i)))
    && (forall i, j | 0 <= i < SEATS && 0 <= j < SEATS && Sits(t, i) && Sits(t, j) && At(t, i).pending
         && At(t, j).pending ::
          RoundsWon(At(t, i)) == RoundsWon(At(t, j)))
    && forall i | 0 <= i < SEATS && Sits(t, i) && (At(t, i).pending || (MidRound(t.phase) && At(t, i).choice >= 0)) ::
      At(t, i).game == t.game
  }

  predicate PotOpen(phase: Phase) { phase.InGame? || phase.Countdown? || phase.StopWait? || phase.AnimWait? }

  /** The pot holds one point from everyone who takes part, and nothing when nobody does. */
  predicate PotOk(t: Table) {
    t.pool == if PotOpen(t.phase) then Paid(t.roster, t.game) else 0
  }

  predicate CountersOk(t: Table)
    requires Shape(t)
  {
    && t.sittingCt == Number(t, Occupied, 0)
    && (MidRound(t.phase) ==> t.choiceCt == Number(t, Chose, 0))
    && (t.phase.Idle? || t.phase.WinWait? ==> Number(t, Flagged, 0) == 0)
    && (if t.phase.Winner? then t.pendingCt == 0 && Number(t, Flagged, 0) <= 1
         else t.pendingCt == Number(t, Flagged, 0))
  }

  predicate Good(t: Table) {
    Shape(t) && Apart(t) && RosterOk(t) && NoneFreed(t) && PlayersOk(t) && PotOk(t) && CountersOk(t)
  }

  // ---------- Counting lemmas ----------

  function Bit(t: Table, k: Kind, i: nat): nat
    requires Shape(t) && i < SEATS
  {
    if Sits(t, i) && Is(At(t, i), k) then 1 else 0
  }

  /** One seat changes. */
  lemma {:induction false} NumberChanges(t: Table, t': Table, k: Kind, i: nat, from: nat)
    requires Shape(t) && Shape(t') && i < SEATS && from <= SEATS
    requires forall j | 0 <= j < SEATS && j != i :: Bit(t', k, j) == Bit(t, k, j)
    ensures Number(t', k, from) - Number(t, k, from) == if from <= i then Bit(t', k, i) - Bit(t, k, i) else 0
    decreases SEATS - from
  {
    if from < SEATS {
      NumberChanges(t, t', k, i, from + 1);
      assert Bit(t, k, from) + Number(t, k, from + 1) == Number(t, k, from);
      assert Bit(t', k, from) + Number(t', k, from + 1) == Number(t', k, from);
    }
  }

  lemma {:induction false} NumberSame(t: Table, t': Table, k: Kind, from: nat)
    requires Shape(t) && Shape(t') && from <= SEATS
    requires forall j | from <= j < SEATS :: Bit(t', k, j) == Bit(t, k, j)
    ensures Number(t', k, from) == Number(t, k, from)
    decreases SEATS - from
  {
    if from < SEATS {
      NumberSame(t, t', k, from + 1);
      assert Bit(t, k, from) == Bit(t', k, from);
    }
  }

  lemma {:induction false} NumberPositive(t: Table, k: Kind, i: nat, from: nat)
    requires Shape(t) && from <= i < SEATS && Bit(t, k, i) == 1
    ensures Number(t, k, from) >= 1
    decreases i - from
  {
    if from < i {
      NumberPositive(t, k, i, from + 1);
    }
  }

  lemma {:induction false} NumberZero(t: Table, k: Kind, from: nat)
    requires Shape(t) && from <= SEATS && forall j | from <= j < SEATS :: Bit(t, k, j) == 0
    ensures Number(t, k, from) == 0
    decreases SEATS - from
  {
    if from < SEATS {
      NumberZero(t, k, from + 1);
      assert Bit(t, k, from) == 0;
    }
  }

  lemma {:induction false} ScoresUpdate(roster: seq<Player>, id: nat, p: Player)
    requires id < |roster|
    ensures Scores(roster[id := p]) == Scores(roster) - roster[id].score + p.score
  {
    if id > 0 {
      assert roster[id := p][1..] == roster[1..][id - 1 := p];
      ScoresUpdate(roster[1..], id - 1, p);
    }
  }

  lemma {:induction false} ScoresAppend(roster: seq<Player>, p: Player)
    ensures Scores(roster + [p]) == Scores(roster) + p.score
  {
    if roster == [] {
      assert Scores([p]) == p.score + Scores([]);
    } else {
      assert (roster + [p])[1..] == roster[1..] + [p];
      ScoresAppend(roster[1..], p);
    }
  }

  lemma {:induction false} PaidUpdate(roster: seq<Player>, id: nat, p: Player, game: nat)
    requires id < |roster|
    ensures Paid(roster[id := p], game)
            == Paid(roster, game) - (if roster[id].game == game then 1 else 0) + (if p.game == game then 1 else 0)
  {
    if id > 0 {
      assert roster[id := p][1..] == roster[1..][id - 1 := p];
      PaidUpdate(roster[1..], id - 1, p, game);
    }
  }

  lemma {:induction false} PaidAppend(roster: seq<Player>, p: Player, game: nat)
    ensures Paid(roster + [p], game) == Paid(roster, game) + if p.game == game then 1 else 0
  {
    if roster == [] {
      assert Paid([p], game) == (if p.game == game then 1 else 0) + Paid([], game);
    } else {
      assert (roster + [p])[1..] == roster[1..] + [p];
      PaidAppend(roster[1..], p, game);
    }
  }

  lemma {:induction false} PaidNone(roster: seq<Player>, game: nat)
    requires forall id | 0 <= id < |roster| :: roster[id].game < game
    ensures Paid(roster, game) == 0
  {
    if roster != [] {
      PaidNone(roster[1..], game);
    }
  }

  // ---------- One player changes ----------

  /** t' is t with the i-th seat's player changed, apart from phase, pot and counters. */
  predicate Changes(t: Table, t': Table, i: nat, p: Player)
    requires Shape(t) && i < SEATS && Sits(t, i)
  {
    && t'.roster == t.roster[t.seats[i].value := p] && t'.seats == t.seats && t'.known == t.known
    && t'.game == t.game && t'.sittingCt == t.sittingCt
    && p.ki == At(t, i).ki && p.freed == At(t, i).freed
  }

  lemma ChangeKeeps(t: Table, t': Table, i: nat, p: Player)
    requires Shape(t) && Apart(t) && i < SEATS && Sits(t, i) && Changes(t, t', i, p)
    ensures Shape(t') && Apart(t') && (NoneFreed(t) ==> NoneFreed(t'))
    ensures forall id | 0 <= id < |t.roster| && id != t.seats[i].value :: t'.roster[id] == t.roster[id]
    ensures forall j | 0 <= j < SEATS && j != i && Sits(t, j) :: Sits(t', j) && At(t', j) == At(t, j)
    ensures At(t', i) == p
    ensures forall id | 0 <= id < |t.roster| :: AtTable(t', id) <==> AtTable(t, id)
    ensures forall k: Kind, j | 0 <= j < SEATS && j != i :: Bit(t', k, j) == Bit(t, k, j)
    ensures forall k: Kind :: Bit(t', k, i) == if Is(p, k) then 1 else 0
  {
    forall j | 0 <= j < SEATS && j != i && Sits(t, j) ensures Sits(t', j) && At(t', j) == At(t, j) {
      assert At(t, j).ki != At(t, i).ki;
    }
    assert At(t', i) == p;
    forall j | 0 <= j < SEATS && Sits(t', j)
      ensures Sits(t, j) && At(t', j).ki == At(t, j).ki && At(t', j).freed == At(t, j).freed
    {
    }
    forall id | 0 <= id < |t.roster| ensures AtTable(t', id) <==> AtTable(t, id) {
      assert t'.seats == t.seats;
    }
  }

  // ---------- Sitting down ----------

  /** The i-th seat is taken by the Sitter at id, who was standing. */
  predicate Arrives(t: Table, t': Table, i: nat, id: nat)
    requires Shape(t) && Shape(t')
  {
    && i < SEATS && !Sits(t, i) && t'.seats == t.seats[i := Some(id)]
    && |t.roster| <= |t'.roster| && id < |t'.roster| && !AtTable(t, id)
    && (forall k | 0 <= k < |t.roster| && k != id :: t'.roster[k] == t.roster[k])
    && |t'.roster| <= |t.roster| + (if id == |t.roster| then 1 else 0)
    && t'.roster[id].choice == -1 && !t'.roster[id].pending
    && (forall j | 0 <= j < SEATS && Sits(t, j) :: At(t, j).ki != t'.roster[id].ki)
    && t'.game == t.game && t'.phase == t.phase
  }

  lemma ArrivalSeats(t: Table, t': Table, i: nat, id: nat)
    requires Shape(t) && Shape(t') && Arrives(t, t', i, id)
    ensures forall j | 0 <= j < SEATS && j != i :: Sits(t', j) == Sits(t, j)
    ensures forall j | 0 <= j < SEATS && j != i && Sits(t, j) :: At(t', j) == At(t, j)
    ensures Sits(t', i) && At(t', i) == t'.roster[id]
    ensures forall k | 0 <= k < |t'.roster| :: AtTable(t', k) <==> k == id || (k < |t.roster| && AtTable(t, k))
  {
    forall j | 0 <= j < SEATS && j != i && Sits(t, j) ensures At(t', j) == At(t, j) && t.seats[j].value != id {
      assert t.seats[j].value != id;
    }
    forall k | 0 <= k < |t'.roster|
      ensures AtTable(t', k) <==> k == id || (k < |t.roster| && AtTable(t, k))
    {
      if k == id {
        assert Sits(t', i) && t'.seats[i].value == id;
      } else if k < |t.roster| && AtTable(t, k) {
        var j :| 0 <= j < SEATS && Sits(t, j) && t.seats[j].value == k;
        assert Sits(t', j) && t'.seats[j].value == k;
      }
    }
  }

  lemma ArrivalCounts(t: Table, t': Table, i: nat, id: nat)
    requires Shape(t) && Shape(t') && Arrives(t, t', i, id)
    ensures Number(t', Occupied, 0) == Number(t, Occupied, 0) + 1
    ensures Number(t', Chose, 0) == Number(t, Chose, 0)
    ensures Number(t', Flagged, 0) == Number(t, Flagged, 0)
  {
    hide Number;
    ArrivalSeats(t, t', i, id);
    NumberChanges(t, t', Occupied, i, 0);
    NumberChanges(t, t', Chose, i, 0);
    NumberChanges(t, t', Flagged, i, 0);
  }

  lemma SitArrives(t: Table, ki: nat, position: nat, score: int) returns (id: nat)
    requires Good(t) && position < SEATS && SeatOf(t, ki, 0).None? && !Sits(t, position) && t.sittingCt < SEATS
    ensures Arrives(t, Sit(t, ki, position, score), position, id)
    ensures Sit(t, ki, position, score).roster[id].game <= t.game && (PotOpen(t.phase) ==> t.game > 0)
    ensures match Find(t, ki, 0)
            case None => id == |t.roster|
            case Some(k) => id == k && id < |t.roster| && id in t.known
  {
    hide CountersOk, PotOk, PlayersOk;
    match Find(t, ki, 0)
    case None => id := |t.roster|;
    case Some(k) => id := k;
      forall j | 0 <= j < SEATS && Sits(t, j) ensures t.seats[j].value != k {
        assert At(t, j).ki != ki;
      }
  }

  lemma ArrivalKeeps(t: Table, t': Table, i: nat, id: nat)
    requires Good(t) && Shape(t') && Arrives(t, t', i, id) && t'.roster[id].game <= t.game
    ensures Apart(t') && RosterOk(t') && PlayersOk(t')
  {
    hide Number, CountersOk, PotOk, NoneFreed;
    ArrivalSeats(t, t', i, id);
  }

  lemma GoodSit(t: Table, ki: nat, position: nat, score: int)
    requires Good(t) && position < SEATS && SeatOf(t, ki, 0).None?
    ensures Good(Sit(t, ki, position, score))
  {
    hide Number, SeatOf, Apart, RosterOk, PlayersOk;
    if t.sittingCt < SEATS && !Sits(t, position) {
      var t' := Sit(t, ki, position, score);
      var id := SitArrives(t, ki, position, score);
      ArrivalSeats(t, t', position, id);
      ArrivalCounts(t, t', position, id);
      ArrivalKeeps(t, t', position, id);
      match Find(t, ki, 0)
      case None => PaidAppend(t.roster, NewPlayer(ki, score), t.game);
      case Some(k) => PaidUpdate(t.roster, k, Seated(t.roster[k], t.game, score), t.game);
    }
  }

  /** What sitting down adds to the points there are: nothing for a Sitter of the current game that is
      found again, which is not always the player's own; see HeekList.SitsAgain. */
  function SitGain(t: Table, ki: nat, position: nat, score: int): int
    requires Shape(t) && position < SEATS
  {
    if t.sittingCt >= SEATS || Sits(t, position) then 0
    else
      match Find(t, ki, 0)
      case None => score
      case Some(id) => if t.roster[id].game == t.game then 0 else score - t.roster[id].score
  }

  lemma SitWealth(t: Table, ki: nat, position: nat, score: int)
    requires Shape(t) && position < SEATS
    ensures Wealth(Sit(t, ki, position, score)) == Wealth(t) + SitGain(t, ki, position, score)
  {
    if t.sittingCt < SEATS && !Sits(t, position) {
      match Find(t, ki, 0)
      case None => ScoresAppend(t.roster, NewPlayer(ki, score));
      case Some(id) => ScoresUpdate(t.roster, id, Seated(t.roster[id], t.game, score));
    }
  }

  // ---------- Choosing ----------

  /** The i-th player's fields other than name, score, game and storage may change. */
  predicate KeepsPay(p: Player, q: Player) {
    q.ki == p.ki && q.game == p.game && q.freed == p.freed
  }

  /** Only rounds, choices and flags of seated players differ, and phase, pot and counters. */
  predicate Outline(t: Table, t': Table)
    requires Shape(t)
  {
    && t'.seats == t.seats && t'.known == t.known && t'.game == t.game && t'.sittingCt == t.sittingCt
    && |t'.roster| == |t.roster|
    && (forall id | 0 <= id < |t.roster| :: KeepsPay(t.roster[id], t'.roster[id]))
    && (forall id | 0 <= id < |t.roster| && !AtTable(t, id) :: t'.roster[id] == t.roster[id])
  }

  lemma OutlineThen(t: Table, mid: Table, t': Table)
    requires Shape(t) && Shape(mid) && Outline(t, mid) && Outline(mid, t')
    ensures Outline(t, t')
  {
    forall id | 0 <= id < |t.roster| ensures AtTable(mid, id) <==> AtTable(t, id) {
      assert mid.seats == t.seats;
    }
  }

  lemma {:induction false} PaidSame(a: seq<Player>, b: seq<Player>, game: nat)
    requires |a| == |b| && forall id | 0 <= id < |a| :: a[id].game == b[id].game
    ensures Paid(a, game) == Paid(b, game)
  {
    if a != [] {
      PaidSame(a[1..], b[1..], game);
    }
  }

  lemma {:induction false} ScoresSame(a: seq<Player>, b: seq<Player>)
    requires |a| == |b| && forall id | 0 <= id < |a| :: a[id].score == b[id].score
    ensures Scores(a) == Scores(b)
  {
    if a != [] {
      ScoresSame(a[1..], b[1..]);
    }
  }

  /** What needs no more than the outline. */
  lemma OutlineKeeps(t: Table, t': Table)
    requires Shape(t) && Apart(t) && RosterOk(t) && NoneFreed(t) && t.sittingCt == Number(t, Occupied, 0)
    requires Outline(t, t') && (t'.phase.Idle? ==> t.phase.Idle?)
    ensures Shape(t') && Apart(t') && NoneFreed(t') && t'.sittingCt == Number(t', Occupied, 0)
    ensures t.phase == t'.phase || t.game > 0 ==> RosterOk(t')
    ensures Paid(t'.roster, t.game) == Paid(t.roster, t.game)
  {
    assert Shape(t');
    forall i | 0 <= i < SEATS && Sits(t, i) ensures Sits(t', i) && KeepsPay(At(t, i), At(t', i)) {
    }
    NumberSame(t, t', Occupied, 0);
    PaidSame(t.roster, t'.roster, t.game);
    forall id | 0 <= id < |t.roster| ensures AtTable(t', id) <==> AtTable(t, id) {
      assert t'.seats == t.seats;
    }
  }

  lemma ChoiceCleared(t: Table, i: nat)
    requires Shape(t) && Apart(t) && i < SEATS
    ensures
      var t' := if Sits(t, i) then With(t, i, At(t, i).(choice := -1)) else t;
      && Outline(t, t') && Apart(t') && t' == t.(roster := t'.roster)
      && (forall id | 0 <= id < |t.roster| :: t'.roster[id] == t.roster[id].(choice := t'.roster[id].choice))
      && (forall j | 0 <= j < SEATS && Sits(t, j) :: At(t', j).choice == if j == i then -1 else At(t, j).choice)
  {
    if Sits(t, i) {
      ChangeKeeps(t, With(t, i, At(t, i).(choice := -1)), i, At(t, i).(choice := -1));
      SeatedIs(t, i);
    }
  }

  lemma {:induction false} NoChoicesMeans(t: Table, i: nat)
    requires Shape(t) && Apart(t) && i <= SEATS
    ensures
      var t' := NoChoices(t, i);
      && Outline(t, t') && t' == t.(roster := t'.roster)
      && (forall id | 0 <= id < |t.roster| :: t'.roster[id] == t.roster[id].(choice := t'.roster[id].choice))
      && (forall j | 0 <= j < SEATS && Sits(t, j) :: At(t', j).choice == if j >= i then -1 else At(t, j).choice)
    decreases SEATS - i
  {
    hide Apart;
    if i < SEATS {
      var t1 := if Sits(t, i) then With(t, i, At(t, i).(choice := -1)) else t;
      ChoiceCleared(t, i);
      NoChoicesMeans(t1, i + 1);
      OutlineThen(t, t1, NoChoices(t, i));
    }
  }

  lemma SeatedIs(t: Table, i: nat)
    requires Shape(t) && i < SEATS && Sits(t, i)
    ensures AtTable(t, t.seats[i].value)
  {
  }

  lemma ResetGameKeeps(t: Table)
    requires Shape(t) && RosterOk(t)
    ensures Paid(ResetGame(t).roster, t.game + 1) == 0
  {
    PaidNone(t.roster, t.game + 1);
  }

  /** After the start of a countdown nobody has chosen. */
  lemma GoodCountdown(t: Table)
    requires Good(t)
    ensures Good(StartCountdown(t))
    ensures Wealth(StartCountdown(t)) == Wealth(t)
  {
    hide Number, PlayersOk, Apart, NoneFreed, Scores, Paid, NoChoices, AtTable;
    var t1 := if t.phase.Idle? then ResetGame(t.(phase := InGame)) else t;
    ResetGameKeeps(t);
    if t1.phase.InGame? {
      var t2 := t1.(phase := Countdown, choiceCt := 0);
      SameSeats(t, t2);
      NoChoicesMeans(t2, 0);
      var t' := NoChoices(t2, 0);
      assert StartCountdown(t) == t';
      OutlineKeeps(t2, t');
      NoChoicesCounts(t2, t');
      ScoresSame(t.roster, t'.roster);
      CountdownPaid(t, t');
    }
  }

  lemma SameSeats(t: Table, t': Table)
    requires Shape(t) && t'.seats == t.seats && t'.roster == t.roster && t'.known == t.known
    ensures Shape(t') && (Apart(t) ==> Apart(t')) && (NoneFreed(t) ==> NoneFreed(t'))
    ensures forall k :: Number(t', k, 0) == Number(t, k, 0)
    ensures forall id | 0 <= id < |t.roster| :: AtTable(t', id) <==> AtTable(t, id)
  {
    forall j | 0 <= j < SEATS && Sits(t', j) ensures Sits(t, j) && At(t', j) == At(t, j) {
    }
    forall k ensures Number(t', k, 0) == Number(t, k, 0) {
      NumberSame(t, t', k, 0);
    }
  }

  lemma NoChoicesCounts(t: Table, t': Table)
    requires Shape(t) && Shape(t') && t'.seats == t.seats && |t'.roster| == |t.roster|
    requires forall id | 0 <= id < |t.roster| :: t'.roster[id] == t.roster[id].(choice := t'.roster[id].choice)
    requires forall j | 0 <= j < SEATS && Sits(t, j) :: At(t', j).choice == -1
    ensures Number(t', Chose, 0) == 0 && Number(t', Flagged, 0) == Number(t, Flagged, 0)
  {
    forall j | 0 <= j < SEATS ensures Bit(t', Chose, j) == 0 && Bit(t', Flagged, j) == Bit(t, Flagged, j) {
    }
    NumberZero(t', Chose, 0);
    NumberSame(t, t', Flagged, 0);
  }

  lemma CountdownPaid(t: Table, t': Table)
    requires Shape(t) && Shape(t') && t'.seats == t.seats && |t'.roster| == |t.roster| && PlayersOk(t)
    requires forall id | 0 <= id < |t.roster| :: t'.roster[id] == t.roster[id].(choice := t'.roster[id].choice)
    requires forall j | 0 <= j < SEATS && Sits(t, j) :: At(t', j).choice == -1
    requires t'.game == t.game || Number(t, Flagged, 0) == 0
    ensures PlayersOk(t')
  {
    hide ThreeOfAKind, RoundsWon, Number;
    forall i | 0 <= i < SEATS && Sits(t', i)
      ensures Sits(t, i) && At(t', i).pending == At(t, i).pending && At(t', i).choice == -1
      ensures ThreeOfAKind(At(t', i)) == ThreeOfAKind(At(t, i)) && RoundsWon(At(t', i)) == RoundsWon(At(t, i))
      ensures At(t, i).pending ==> At(t', i).game == t'.game
    {
      SameWins(At(t, i), At(t', i));
      if At(t, i).pending {
        assert Bit(t, Flagged, i) == 1;
        NumberPositive(t, Flagged, i, 0);
      }
    }
  }

  lemma SameWins(p: Player, q: Player)
    requires p.wins == q.wins
    ensures ThreeOfAKind(p) == ThreeOfAKind(q) && RoundsWon(p) == RoundsWon(q)
  {
  }

  /** The player whose choice is registered. */
  function Chooser(p: Player, game: nat, choice: Choice): Player {
    (if p.game == game then p else ResetWins(p.(game := game, score := p.score - 1))).(choice := choice)
  }

  lemma RegisterMeans(t: Table, i: nat, choice: Choice)
    requires Shape(t) && i < SEATS && Sits(t, i)
    ensures
      var p, t' := At(t, i), Register(t, i, choice);
      && Changes(t, t', i, Chooser(p, t.game, choice))
      && t'.pool == t.pool + (if p.game == t.game then 0 else 1)
      && t'.choiceCt == t.choiceCt + (if p.choice < 0 then 1 else 0)
      && t'.phase == (if t'.choiceCt >= t'.sittingCt then StopWait else t.phase) && t'.pendingCt == t.pendingCt
  {
    assert t.roster[t.seats[i].value := At(t, i)] == t.roster;
  }

  lemma GoodRegister(t: Table, i: nat, choice: Choice)
    requires Good(t) && t.phase.Countdown? && i < SEATS && Sits(t, i) && choice >= 0
    ensures Good(Register(t, i, choice)) && Wealth(Register(t, i, choice)) == Wealth(t)
  {
    hide Number, Register, AtTable, Apart, NoneFreed, Scores, Paid;
    var t', p := Register(t, i, choice), At(t, i);
    var q := Chooser(p, t.game, choice);
    RegisterMeans(t, i, choice);
    ChangeKeeps(t, t', i, q);
    SeatedIs(t, i);
    assert Bit(t, Chose, i) == (if p.choice >= 0 then 1 else 0);
    NumberChanges(t, t', Occupied, i, 0);
    NumberChanges(t, t', Chose, i, 0);
    NumberChanges(t, t', Flagged, i, 0);
    PaidUpdate(t.roster, t.seats[i].value, q, t.game);
    ScoresUpdate(t.roster, t.seats[i].value, q);
  }

  lemma GoodChoose(t: Table, ki: nat, choice: nat)
    requires Good(t)
    ensures Good(Choose(t, ki, choice)) && Wealth(Choose(t, ki, choice)) == Wealth(t)
  {
    hide Apart, RosterOk, NoneFreed, PlayersOk, PotOk, CountersOk, Wealth, StartCountdown, Register;
    GoodCountdown(t);
    var t1 := StartCountdown(t);
    if t.sittingCt >= 2 && t1.phase.Countdown? && choice <= 2 {
      var seat := SeatOf(t1, ki, 0);
      if seat.Some? {
        GoodRegister(t1, seat.value, choice);
      }
    }
  }

  // ---------- Getting up ----------

  lemma {:induction false} AtMostSeated(t: Table, k: Kind, from: nat)
    requires Shape(t) && from <= SEATS
    ensures Number(t, k, from) <= Number(t, Occupied, from)
    decreases SEATS - from
  {
    if from < SEATS {
      AtMostSeated(t, k, from + 1);
    }
  }

  lemma NobodySits(t: Table, i: nat)
    requires Shape(t) && Number(t, Occupied, 0) == 0 && i < SEATS
    ensures !Sits(t, i)
  {
    if Sits(t, i) {
      NumberPositive(t, Occupied, i, 0);
    }
  }

  /** The i-th player stands up, with no choice and out of the running. */
  predicate Departs(t: Table, t': Table, i: nat)
    requires Shape(t) && i < SEATS && Sits(t, i)
  {
    && t'.seats == t.seats[i := None] && t'.known == t.known && t.game <= t'.game
    && t'.roster == t.roster[t.seats[i].value := At(t, i).(choice := -1, pending := false)]
  }

  lemma DepartureSeats(t: Table, t': Table, i: nat)
    requires Shape(t) && Apart(t) && RosterOk(t) && NoneFreed(t) && i < SEATS && Sits(t, i) && Departs(t, t', i)
    requires t'.phase.Idle? || t'.game > 0
    ensures Shape(t') && Apart(t') && RosterOk(t') && NoneFreed(t')
    ensures forall j | 0 <= j < SEATS && j != i :: Sits(t', j) == Sits(t, j) && (Sits(t, j) ==> At(t', j) == At(t, j))
    ensures !Sits(t', i)
  {
    forall j | 0 <= j < SEATS && j != i && Sits(t, j) ensures Sits(t', j) && At(t', j) == At(t, j) {
      assert At(t, j).ki != At(t, i).ki;
    }
    forall j | 0 <= j < SEATS && Sits(t', j) ensures j != i && Sits(t, j) && At(t', j) == At(t, j) {
    }
    forall id | 0 <= id < |t.roster| && !AtTable(t', id)
      ensures id == t.seats[i].value || !AtTable(t, id)
    {
      if id != t.seats[i].value {
        forall j | 0 <= j < SEATS && Sits(t, j) ensures t.seats[j].value != id {
          assert j == i || Sits(t', j);
        }
      }
    }
  }

  lemma DepartureCounts(t: Table, t': Table, i: nat)
    requires Shape(t) && Apart(t) && RosterOk(t) && NoneFreed(t) && i < SEATS && Sits(t, i) && Departs(t, t', i)
    requires t'.phase.Idle? || t'.game > 0
    ensures Shape(t') && Number(t', Occupied, 0) == Number(t, Occupied, 0) - 1
    ensures Number(t', Chose, 0) == Number(t, Chose, 0) - (if At(t, i).choice >= 0 then 1 else 0)
    ensures Number(t', Flagged, 0) == Number(t, Flagged, 0) - (if At(t, i).pending then 1 else 0)
  {
    hide Number;
    DepartureSeats(t, t', i);
    NumberChanges(t, t', Occupied, i, 0);
    NumberChanges(t, t', Chose, i, 0);
    NumberChanges(t, t', Flagged, i, 0);
  }

  lemma DepartMeans(t: Table, i: nat)
    requires Good(t) && i < SEATS && Sits(t, i)
    ensures
      var t', p := Depart(t, i), At(t, i);
      && Departs(t, t', i) && (t'.phase.Idle? || t'.game > 0)
      && t'.sittingCt == t.sittingCt - 1
      && (t.sittingCt == 1 ==> t'.pool == 0 && t'.game == t.game + 1)
      && (t.sittingCt == 1 ==> t'.phase == if t.phase.Countdown? then StopWait else Idle)
      && (t.sittingCt > 1 ==> t'.pool == t.pool && t'.game == t.game && t'.phase == t.phase)
      && t'.choiceCt == (if p.choice >= 0 && MidRound(t'.phase) then Less(t.choiceCt) else t.choiceCt)
      && t'.pendingCt == (if p.pending then Less(t.pendingCt) else t.pendingCt)
  {
    hide Number, Apart, NoneFreed, PlayersOk, PotOk;
    assert Bit(t, Occupied, i) == 1;
    NumberPositive(t, Occupied, i, 0);
  }

  lemma GoodDepart(t: Table, i: nat)
    requires Good(t) && i < SEATS && Sits(t, i)
    ensures Good(Depart(t, i))
    ensures Wealth(Depart(t, i)) == Wealth(t) - if t.sittingCt == 1 then t.pool else 0
  {
    hide Number, Depart, Apart, NoneFreed, Paid, Scores, AtTable;
    var t', id, p := Depart(t, i), t.seats[i].value, At(t, i);
    var q := p.(choice := -1, pending := false);
    DepartMeans(t, i);
    DepartureSeats(t, t', i);
    DepartureCounts(t, t', i);
    ScoresUpdate(t.roster, id, q);
    PaidUpdate(t.roster, id, q, t.game);
    PaidNone(t'.roster, t.game + 1);
    AtMostSeated(t', Flagged, 0);
    DepartCounters(t, t', i);
    DepartPaid(t, t', i);
  }

  lemma DepartCounters(t: Table, t': Table, i: nat)
    requires Good(t) && i < SEATS && Sits(t, i) && t' == Depart(t, i)
    ensures CountersOk(t')
  {
    hide Number, Depart, Apart, RosterOk, NoneFreed, PlayersOk, PotOk, AtTable;
    var p := At(t, i);
    DepartMeans(t, i);
    DepartureCounts(t, t', i);
    AtMostSeated(t', Flagged, 0);
    AtMostSeated(t', Chose, 0);
  }

  lemma DepartPaid(t: Table, t': Table, i: nat)
    requires Good(t) && i < SEATS && Sits(t, i) && t' == Depart(t, i)
    ensures PlayersOk(t')
  {
    hide Number, Depart, Apart, RosterOk, NoneFreed, PotOk, AtTable;
    DepartMeans(t, i);
    DepartureSeats(t, t', i);
    DepartureCounts(t, t', i);
    forall j | 0 <= j < SEATS && Sits(t', j) ensures t'.game == t.game {
      if t.sittingCt == 1 {
        NobodySits(t', j);
      }
    }
  }

  lemma GoodScore(t: Table, i: nat, score: int)
    requires Good(t) && i < SEATS && Sits(t, i)
    ensures
      var t' := With(t, i, At(t, i).(score := score));
      && Good(t') && Wealth(t') == Wealth(t) - At(t, i).score + score
      && Sits(t', i) && t'.sittingCt == t.sittingCt && t'.pool == t.pool
  {
    hide Number, Apart, NoneFreed, Paid, Scores, AtTable;
    var p := At(t, i).(score := score);
    var t' := With(t, i, p);
    ChangeKeeps(t, t', i, p);
    SeatedIs(t, i);
    NumberChanges(t, t', Occupied, i, 0);
    NumberChanges(t, t', Chose, i, 0);
    NumberChanges(t, t', Flagged, i, 0);
    PaidUpdate(t.roster, t.seats[i].value, p, t.game);
    ScoresUpdate(t.roster, t.seats[i].value, p);
  }

  lemma GoodLeave(t: Table, ki: nat)
    requires Good(t)
    ensures Good(Leave(t, ki)) && Wealth(Leave(t, ki)) == Wealth(t)
  {
    hide Apart, RosterOk, NoneFreed, PlayersOk, PotOk, CountersOk, Wealth, Depart;
    var seat := SeatOf(t, ki, 0);
    if seat.Some? {
      var i := seat.value;
      var paid := With(t, i, At(t, i).(score := At(t, i).score + t.pool));
      GoodScore(t, i, At(t, i).score + t.pool);
      GoodDepart(if t.sittingCt == 1 then paid else t, i);
    }
  }

  /** The Sitter that is freed is neither at the table nor known any more. */
  lemma GoodForget(t: Table, ki: nat)
    requires Good(t) && SeatOf(t, ki, 0).None?
    ensures Good(Forget(t, ki)) && Wealth(Forget(t, ki)) == Wealth(t)
  {
    hide Number, Paid, Scores, SeatOf, AtTable, RoundsWon, ThreeOfAKind;
    if t.known != [] {
      var t', id := Forget(t, ki), t.known[0];
      forall j | 0 <= j < SEATS && Sits(t, j) ensures Sits(t', j) && At(t', j) == At(t, j) {
        assert At(t, j).ki != ki;
      }
      forall a | 0 <= a < |t'.known| ensures t'.known[a] != id && t'.known[a] == t.known[a + 1] {
      }
      forall j | 0 <= j < SEATS && Sits(t', j) ensures Sits(t, j) && At(t', j) == At(t, j) {
      }
      ForgetCounts(t, t');
      PaidSame(t.roster, t'.roster, t.game);
      ScoresSame(t.roster, t'.roster);
    }
  }

  lemma ForgetCounts(t: Table, t': Table)
    requires Shape(t) && Shape(t') && t'.seats == t.seats
    requires forall j | 0 <= j < SEATS && Sits(t, j) :: Sits(t', j) && At(t', j) == At(t, j)
    ensures forall k :: Number(t', k, 0) == Number(t, k, 0)
    ensures forall id :: AtTable(t', id) <==> AtTable(t, id)
  {
    hide Number;
    forall k ensures Number(t', k, 0) == Number(t, k, 0) {
      forall j | 0 <= j < SEATS ensures Bit(t', k, j) == Bit(t, k, j) {
      }
      NumberSame(t, t', k, 0);
    }
    forall id ensures AtTable(t', id) <==> AtTable(t, id) {
      assert t'.seats == t.seats;
    }
  }

  lemma GoodLeaveAge(t: Table, ki: nat)
    requires Good(t)
    ensures Good(LeaveAge(t, ki))
    ensures Wealth(LeaveAge(t, ki)) == Wealth(t) - if SeatOf(t, ki, 0).Some? && t.sittingCt == 1 then t.pool else 0
  {
    hide RosterOk, NoneFreed, PlayersOk, PotOk, CountersOk, Wealth, Depart, Forget;
    var seat := SeatOf(t, ki, 0);
    var t1 := if seat.Some? then Depart(t, seat.value) else t;
    if seat.Some? {
      GoodDepart(t, seat.value);
      DepartMeans(t, seat.value);
      DepartureSeats(t, t1, seat.value);
      forall j | 0 <= j < SEATS && Sits(t1, j) ensures At(t1, j).ki != ki {
        assert Sits(t, j) && At(t1, j) == At(t, j);
      }
    }
    GoodForget(t1, ki);
  }
}

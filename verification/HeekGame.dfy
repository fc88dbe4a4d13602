/** The Heek table as it is kept in memory (HeekGameMgr in GameState.cc). */
module HeekGame {
  import opened Wire
  import opened Heek
  import opened HeekSafety
  import opened HeekRounds

  class Sitter {
    ghost const id: nat
    const ki: nat
    var score: int
    var choice: Choice
    var wins: Wins
    var currentGame: nat
    var pendingWinner: bool
    ghost var freed: bool

    constructor (ki: nat, score: int, ghost id: nat)
      ensures Value() == NewPlayer(ki, score) && this.id == id
    {
      this.ki, this.score, this.id := ki, score, id;
      choice, currentGame, freed := -1, 0, false;
      wins, pendingWinner := NO_WINS, false;
    }

    ghost function Value(): Player
      reads this
    {
      Player(ki, score, choice, wins, currentGame, pendingWinner, freed)
    }

    method ResetWins()
      modifies this
      ensures Value() == Heek.ResetWins(old(Value()))
    {
      wins := NO_WINS;
      pendingWinner := false;
    }
  }

  ghost function Values(sitters: seq<Sitter>): (r: seq<Player>)
    reads sitters
    ensures |r| == |sitters| && forall k | 0 <= k < |r| :: r[k] == sitters[k].Value()
  {
    if sitters == [] then [] else [sitters[0].Value()] + Values(sitters[1..])
  }

  class Game {
    var state: Phase
    var currentGame: nat
    var pointPool: nat
    const sitting: array<Sitter?>
    var sittingCt: nat
    var choiceCt: nat
    var pendingWinnerCt: nat
    var all: seq<Sitter>
    /** Every Sitter there ever was, each at its own place. */
    ghost var everyone: seq<Sitter>

    ghost predicate Known(s: Sitter)
      reads this
    {
      s.id < |everyone| && everyone[s.id] == s
    }

    ghost predicate Valid()
      reads this, sitting
    {
      && sitting.Length == SEATS
      && (forall k | 0 <= k < |everyone| :: everyone[k].id == k)
      && (forall k | 0 <= k < |all| :: Known(all[k]))
      && (forall i | 0 <= i < SEATS && sitting[i] != null :: Known(sitting[i]))
    }

    ghost function Seats(): seq<Option<nat>>
      requires sitting.Length == SEATS
      reads sitting
    {
      [SeatView(0), SeatView(1), SeatView(2), SeatView(3), SeatView(4)]
    }

    ghost function SeatView(i: nat): Option<nat>
      requires i < sitting.Length
      reads sitting
    {
      if sitting[i] == null then None else Some(sitting[i].id)
    }

    ghost function View(): (t: Table)
      requires Valid()
      reads this, sitting, everyone
      ensures Shape(t)
      ensures forall i | 0 <= i < SEATS :: Sits(t, i) <==> sitting[i] != null
      ensures forall i | 0 <= i < SEATS && sitting[i] != null ::
                At(t, i) == sitting[i].Value() && t.seats[i] == Some(sitting[i].id)
    {
      Table(state, currentGame, pointPool, Values(everyone), Ids(all), Seats(), sittingCt, choiceCt, pendingWinnerCt)
    }

    constructor ()
      ensures Valid() && View() == Start && fresh(sitting) && everyone == []
    {
      state, currentGame, pointPool, sittingCt, choiceCt, pendingWinnerCt := Idle, 0, 0, 0, 0, 0;
      all, everyone := [], [];
      sitting := new Sitter?[SEATS](_ => null);
    }

    /** One seated player's record has changed. */
    twostate lemma SeatChanged(i: nat)
      requires old(Valid()) && i < SEATS && old(sitting[i]) != null
      requires unchanged(this) && unchanged(sitting)
      requires forall s | s in everyone && s != sitting[i] :: unchanged(s)
      ensures Valid() && View() == With(old(View()), i, sitting[i].Value())
    {
      hide Values;
      var id := sitting[i].id;
      forall k | 0 <= k < |everyone| && k != id ensures Values(everyone)[k] == old(Values(everyone))[k] {
        assert everyone[k].id == k;
        assert everyone[k] in everyone;
      }
      assert Values(everyone) == old(Values(everyone))[id := everyone[id].Value()];
    }

    /** Nothing but the game's own numbers has changed. */
    twostate lemma NumbersChanged()
      requires old(Valid()) && unchanged(sitting) && everyone == old(everyone) && all == old(all)
      requires forall s | s in everyone :: unchanged(s)
      ensures Valid() && View() == old(View()).(phase := state, game := currentGame, pool := pointPool,
                                                sittingCt := sittingCt, choiceCt := choiceCt,
                                                    pendingCt := pendingWinnerCt)
    {
      hide Values;
      forall k | 0 <= k < |everyone| ensures Values(everyone)[k] == old(Values(everyone))[k] {
        assert everyone[k] in everyone;
      }
      assert Values(everyone) == old(Values(everyone));
    }

    /** get_player_index */
    method GetPlayerIndex(player: nat) returns (idx: int)
      requires Valid()
      ensures match SeatOf(View(), player, 0) case None => idx == -1 case Some(i) => idx == i
    {
      for i := 0 to SEATS
        invariant SeatOf(View(), player, 0) == SeatOf(View(), player, i)
      {
        if sitting[i] != null && sitting[i].ki == player {
          return i;
        }
      }
      idx := -1;
    }

    method ResetGame()
      requires Valid()
      modifies this`currentGame, this`pointPool
      ensures Valid() && View() == Heek.ResetGame(old(View()))
    {
      hide View;
      ViewNumbers();
      currentGame := currentGame + 1;
      pointPool := 0;
      NumbersChanged();
    }

    lemma ViewNumbers()
      requires Valid()
      ensures View().phase == state && View().game == currentGame && View().pool == pointPool
      ensures View().sittingCt == sittingCt && View().choiceCt == choiceCt && View().pendingCt == pendingWinnerCt
    {
    }

    method ResetChoices()
      requires Valid()
      modifies this`choiceCt, everyone
      ensures Valid() && View() == NoChoices(old(View()).(choiceCt := 0), 0)
    {
      hide View;
      ViewNumbers();
      choiceCt := 0;
      NumbersChanged();
      ghost var t := View();
      for i := 0 to SEATS
        invariant Valid() && NoChoices(View(), i) == NoChoices(t, 0)
      {
        label before:
        if sitting[i] != null {
          sitting[i].choice := -1;
          SeatChanged@before(i);
        }
      }
    }

    // ---------- Choices ----------

    method BeginCountdown()
      requires Valid()
      modifies this`state, this`currentGame, this`pointPool, this`choiceCt, everyone
      ensures Valid() && View() == StartCountdown(old(View()))
    {
      hide View, NoChoices;
      ViewNumbers();
      if state.Idle? {
        state := InGame;
        NumbersChanged();
        ResetGame();
      }
      ViewNumbers();
      if state.InGame? {
        label before:
        state := Countdown;
        NumbersChanged@before();
        ResetChoices();
      }
    }

    method RegisterChoice(i: nat, c: Choice)
      requires Valid() && i < SEATS && sitting[i] != null
      modifies this`state, this`pointPool, this`choiceCt, sitting[i]
      ensures Valid() && View() == Register(old(View()), i, c)
    {
      hide View, Ante;
      PayIn(i);
      ViewNumbers();
      label paid:
      if sitting[i].choice < 0 {
        choiceCt := choiceCt + 1;
      }
      NumbersChanged@paid();
      SetChoice(i, c);
      ViewNumbers();
      label chosen:
      if choiceCt >= sittingCt {
        state := StopWait;
      }
      NumbersChanged@chosen();
    }

    method SetChoice(i: nat, c: Choice)
      requires Valid() && i < SEATS && sitting[i] != null
      modifies sitting[i]
      ensures Valid() && View() == With(old(View()), i, At(old(View()), i).(choice := c))
    {
      hide View;
      sitting[i].choice := c;
      SeatChanged(i);
    }

    /** The first choice in a game costs a point. */
    method PayIn(i: nat)
      requires Valid() && i < SEATS && sitting[i] != null
      modifies this`pointPool, sitting[i]
      ensures Valid() && View() == Ante(old(View()), i)
    {
      hide View;
      ViewNumbers();
      if sitting[i].currentGame != currentGame {
        sitting[i].currentGame := currentGame;
        sitting[i].ResetWins();
        sitting[i].score := sitting[i].score - 1;
        SeatChanged(i);
        ViewNumbers();
        label before:
        pointPool := pointPool + 1;
        NumbersChanged@before();
      }
    }

    method MakeChoice(player: nat, c: nat)
      requires Valid()
      modifies this`state, this`currentGame, this`pointPool, this`choiceCt, everyone
      ensures Valid() && View() == Choose(old(View()), player, c)
    {
      hide View, StartCountdown, Register;
      ViewNumbers();
      if sittingCt < 2 {
        return;
      }
      BeginCountdown();
      ViewNumbers();
      if state.Countdown? && c <= 2 {
        var idx := GetPlayerIndex(player);
        if idx >= 0 {
          RegisterChoice(idx, c);
        }
      }
    }

    // ---------- Rounds ----------

    method CountChoices() returns (n: Tally)
      requires Valid()
      ensures n == Count(View())
    {
      hide View;
      ghost var t := View();
      var rocks, papers, scissors := 0, 0, 0;
      for i := 0 to SEATS
        invariant rocks + Number(t, Picked(0), i) == Number(t, Picked(0), 0)
        invariant papers + Number(t, Picked(1), i) == Number(t, Picked(1), 0)
        invariant scissors + Number(t, Picked(2), i) == Number(t, Picked(2), 0)
      {
        if sitting[i] != null {
          if sitting[i].choice == 0 {
            rocks := rocks + 1;
          } else if sitting[i].choice == 1 {
            papers := papers + 1;
          } else if sitting[i].choice == 2 {
            scissors := scissors + 1;
          }
        }
      }
      n := Tally(rocks, papers, scissors);
    }

    ghost predicate TotalsOk(totals: seq<int>, n: Tally, from: nat, to: nat)
      requires Valid() && to <= SEATS
      reads this, sitting, everyone
    {
      |totals| == SEATS
      && forall j | from <= j < to && sitting[j] != null && sitting[j].choice >= 0 ::
           totals[j] == Total(n, sitting[j].choice)
    }

    method FindTotals(n: Tally) returns (totals: array<int>, max: int)
      requires Valid()
      ensures fresh(totals) && TotalsOk(totals[..], n, 0, SEATS)
      ensures max == Best(View(), n, 0, -5)
    {
      hide View, Total, Best;
      ghost var t := View();
      totals := new int[SEATS];
      max := -5;
      for i := 0 to SEATS
        invariant Valid() && View() == t && TotalsOk(totals[..], n, 0, i)
        invariant Best(t, n, i, max) == Best(t, n, 0, -5)
      {
        BestStep(t, n, i, max);
        if sitting[i] != null {
          if sitting[i].choice >= 0 {
            totals[i] := Total(n, sitting[i].choice);
            max := Max(max, totals[i]);
          } else {
            totals[i] := -5;
          }
        }
      }
      BestEnd(t, n, max);
    }

    /** A player's part in scoring a round. */
    method CreditSeat(i: nat, who: Sitter, total: int, ghost n: Tally, max: int) returns (won: bool)
      requires Valid() && i < SEATS && sitting[i] == who
      requires who.choice >= 0 ==> total == Total(n, who.choice)
      modifies who`wins, who`pendingWinner
      ensures Valid() && View() == CreditOne(old(View()), n, max, i)
      ensures won <==> GameWinner(old(who.Value()), n, max)
    {
      hide View, Total;
      ViewNumbers();
      won := false;
      SameIfSame(View(), i);
      if who.choice >= 0 && total > 0 && total == max {
        who.wins := who.wins[who.choice := who.wins[who.choice] + 1];
        if who.wins[who.choice] > 2 {
          if pendingWinnerCt == 0 {
            who.pendingWinner := true;
          }
          won := true;
        }
        SeatChanged(i);
      }
    }

    method CreditWinners(totals: array<int>, n: Tally, max: int) returns (winners: nat)
      requires Valid() && TotalsOk(totals[..], n, 0, SEATS)
      modifies everyone
      ensures Valid() && (View(), winners) == CreditAll(old(View()), n, max, 0)
    {
      hide View, Total, CreditAll, Credited, GameWinner;
      ghost var t := View();
      winners := 0;
      for i := 0 to SEATS
        invariant Valid() && TotalsOk(totals[..], n, i, SEATS)
        invariant CreditAll(t, n, max, 0) == (CreditAll(View(), n, max, i).0, winners + CreditAll(View(), n, max, i).1)
      {
        CreditAllStep(View(), n, max, i);
        if sitting[i] != null {
          var won := CreditSeat(i, sitting[i], totals[i], n, max);
          if won {
            winners := winners + 1;
          }
        }
      }
      CreditAllEnd(View(), n, max);
    }

    method FindMost() returns (max: nat)
      requires Valid()
      ensures max == MostWon(View(), 0, 0)
    {
      hide View, MostWon;
      ghost var t := View();
      max := 0;
      for i := 0 to SEATS
        invariant MostWon(t, i, max) == MostWon(t, 0, 0)
      {
        MostStep(t, i, max);
        if sitting[i] != null && sitting[i].pendingWinner {
          max := Max(max, sitting[i].wins[0] + sitting[i].wins[1] + sitting[i].wins[2]);
        }
      }
      MostEnd(t, max);
    }

    method DropOthers(max: nat) returns (winners: nat)
      requires Valid()
      modifies this`pendingWinnerCt, everyone
      ensures Valid() && (View(), winners) == DropBehind(old(View()), max, 0)
    {
      hide View, DropBehind;
      ghost var t := View();
      winners := 0;
      for i := 0 to SEATS
        invariant Valid()
        invariant DropBehind(t, max, 0) == (DropBehind(View(), max, i).0, winners + DropBehind(View(), max, i).1)
      {
        ViewNumbers();
        DropCases(View(), max, i);
        if sitting[i] != null && sitting[i].pendingWinner {
          if sitting[i].wins[0] + sitting[i].wins[1] + sitting[i].wins[2] != max {
            if pendingWinnerCt > 0 {
              if pendingWinnerCt < 2 {
                // the source logs an error; HeekRounds.DropBehindMeans shows that this is never reached
              } else {
                NoMore(i);
                ViewNumbers();
                label before:
                pendingWinnerCt := pendingWinnerCt - 1;
                NumbersChanged@before();
              }
            } else {
              NoMore(i);
            }
          } else {
            winners := winners + 1;
          }
        }
      }
      DropBehindEnd(View(), max);
    }

    method NoMore(i: nat)
      requires Valid() && i < SEATS && sitting[i] != null
      modifies sitting[i]
      ensures Valid() && View() == With(old(View()), i, At(old(View()), i).(pending := false))
    {
      hide View;
      sitting[i].pendingWinner := false;
      SeatChanged(i);
    }

    method PayOut()
      requires Valid()
      modifies this`pointPool, everyone
      ensures Valid() && View() == PayWinner(old(View()), 0)
    {
      hide View, PayWinner;
      ghost var t := View();
      for i := 0 to SEATS
        invariant Valid() && View() == t && PayWinner(t, i) == PayWinner(t, 0)
      {
        ViewNumbers();
        PayStep(t, i);
        if sitting[i] != null && sitting[i].pendingWinner {
          label before:
          sitting[i].score := sitting[i].score + pointPool;
          SeatChanged@before(i);
          label paid:
          pointPool := 0;
          NumbersChanged@paid();
          return;
        }
      }
      PayEnd(t);
    }

    method HandleRound()
      requires Valid()
      modifies this`state, this`pointPool, this`pendingWinnerCt, everyone
      ensures Valid() && View() == Round(old(View()))
    {
      hide View, CreditAll, DropBehind, MostWon, PayWinner, Best, Number;
      ViewNumbers();
      var n := CountChoices();
      if n.rocks + n.papers + n.scissors <= 1 {
        state := InGame;
        NumbersChanged();
        return;
      }
      var totals, max := FindTotals(n);
      var winners := CreditWinners(totals, n, max);
      ViewNumbers();
      if winners == 1 && pendingWinnerCt == 0 {
      } else if winners > 0 || pendingWinnerCt > 0 {
        var most := FindMost();
        winners := DropOthers(most);
      }
      SettleRound(winners);
    }

    method SettleRound(winners: nat)
      requires Valid()
      modifies this`state, this`pointPool, this`pendingWinnerCt, everyone
      ensures Valid() && View() == Settle(old(View()), winners)
    {
      hide View, PayWinner;
      ViewNumbers();
      if pendingWinnerCt == 0 && winners > 1 {
        pendingWinnerCt := winners;
        state := AnimWait;
        NumbersChanged();
      } else if pendingWinnerCt > 1 {
        state := AnimWait;
        NumbersChanged();
      } else if winners == 1 {
        pendingWinnerCt := 0;
        NumbersChanged();
        PayOut();
        ViewNumbers();
        label before:
        state := Winner;
        NumbersChanged@before();
      } else {
        state := AnimWait;
        NumbersChanged();
      }
    }

    method HandleWinner()
      requires Valid()
      modifies this`state, everyone
      ensures Valid() && View() == ShowWinner(old(View()))
    {
      hide View;
      for i := 0 to SEATS
        invariant Valid() && NoFlags(View(), i) == NoFlags(old(View()), 0)
      {
        if sitting[i] != null && sitting[i].pendingWinner {
          NoMore(i);
        }
      }
      ViewNumbers();
      label before:
      state := WinWait;
      NumbersChanged@before();
    }

    // ---------- Coming and going ----------

    method HandleDeparture(position: nat)
      requires Valid() && position < SEATS && sitting[position] != null
      modifies this`state, this`currentGame, this`pointPool, this`sittingCt, this`choiceCt, this`pendingWinnerCt
      modifies sitting, everyone
      ensures Valid() && View() == Depart(old(View()), position)
    {
      hide View, NoChoice, NoFlag, Stood, Depart;
      ViewNumbers();
      DepartParts(View(), position);
      if sittingCt == 1 {
        state := if state.Countdown? then StopWait else Idle;
        NumbersChanged();
        ResetGame();
        ViewNumbers();
      }
      ClearChoice(position);
      ClearFlag(position);
      StandUp(position);
    }

    /** The departing player's choice no longer counts. */
    method ClearChoice(position: nat)
      requires Valid() && position < SEATS && sitting[position] != null
      modifies this`choiceCt, sitting[position]
      ensures Valid() && View() == NoChoice(old(View()), position)
    {
      hide View;
      ViewNumbers();
      if sitting[position].choice >= 0 {
        if MidRound(state) && choiceCt > 0 {
          choiceCt := choiceCt - 1;
        }
        NumbersChanged();
        label counted:
        sitting[position].choice := -1;
        SeatChanged@counted(position);
      } else {
        SameIfSame(View(), position);
      }
    }

    /** Nor does a flag. */
    method ClearFlag(position: nat)
      requires Valid() && position < SEATS && sitting[position] != null
      modifies this`pendingWinnerCt, sitting[position]
      ensures Valid() && View() == NoFlag(old(View()), position)
    {
      hide View;
      ViewNumbers();
      if sitting[position].pendingWinner {
        sitting[position].pendingWinner := false;
        SeatChanged(position);
        label dropped:
        if pendingWinnerCt > 0 {
          pendingWinnerCt := pendingWinnerCt - 1;
        }
        ViewNumbers();
        NumbersChanged@dropped();
      } else {
        SameIfSame(View(), position);
      }
    }

    method StandUp(position: nat)
      requires Valid() && position < SEATS && sitting[position] != null
      modifies this`sittingCt, sitting
      ensures Valid() && View() == Stood(old(View()), position)
    {
      hide Values, Seats;
      sitting[position] := null;
      if sittingCt > 0 {
        sittingCt := sittingCt - 1;
      }
      SittersUnchanged();
      SeatSet(position);
    }

    twostate lemma SeatSet(position: nat)
      requires sitting.Length == SEATS && position < SEATS
      requires forall i | 0 <= i < SEATS && i != position :: sitting[i] == old(sitting[i])
      ensures Seats() == old(Seats())[position := SeatView(position)]
    {
    }

    twostate lemma SittersUnchanged()
      requires everyone == old(everyone) && forall s | s in everyone :: unchanged(s)
      ensures Values(everyone) == old(Values(everyone))
    {
      forall k | 0 <= k < |everyone| ensures Values(everyone)[k] == old(Values(everyone))[k] {
        assert everyone[k] in everyone;
      }
    }

    method LeaveTable(player: nat)
      requires Valid()
      modifies this`state, this`currentGame, this`pointPool, this`sittingCt, this`choiceCt, this`pendingWinnerCt
      modifies sitting, everyone
      ensures Valid() && View() == Leave(old(View()), player)
    {
      hide View, Depart;
      ViewNumbers();
      var idx := GetPlayerIndex(player);
      if idx >= 0 {
        if sittingCt == 1 {
          TakePot(idx);
        }
        HandleDeparture(idx);
      }
    }

    /** The last one at the table "wins". */
    method TakePot(i: nat)
      requires Valid() && i < SEATS && sitting[i] != null
      modifies sitting[i]
      ensures Valid()
      ensures View() == With(old(View()), i, At(old(View()), i).(score := At(old(View()), i).score + old(View()).pool))
    {
      hide View;
      ViewNumbers();
      sitting[i].score := sitting[i].score + pointPool;
      SeatChanged(i);
    }

    method PlayerLeft(player: nat)
      requires Valid()
      modifies this`state, this`currentGame, this`pointPool, this`sittingCt, this`choiceCt, this`pendingWinnerCt
      modifies this`all, sitting, everyone
      ensures Valid() && View() == LeaveAge(old(View()), player)
    {
      hide View, Depart, Forget;
      var idx := GetPlayerIndex(player);
      if idx >= 0 {
        HandleDeparture(idx);
      }
      ForgetFirst(player);
    }

    /** The first in the list goes, whoever it is; only the leaver's own Sitter is freed. */
    method ForgetFirst(player: nat)
      requires Valid()
      modifies this`all, everyone
      ensures Valid() && View() == Forget(old(View()), player)
    {
      hide Values, Ids, Seats;
      if |all| > 0 {
        IdsTail(all);
        if all[0].ki == player {
          all[0].freed := true;
          OneChangedOnly(all[0]);
        } else {
          SittersUnchanged();
        }
        all := all[1..];
      }
    }

    twostate lemma OneChangedOnly(one: Sitter)
      requires everyone == old(everyone) && one.id < |everyone| && everyone[one.id] == one
      requires forall k | 0 <= k < |everyone| :: everyone[k].id == k
      requires forall s | s in everyone && s != one :: unchanged(s)
      ensures Values(everyone) == old(Values(everyone))[one.id := one.Value()]
    {
      forall k | 0 <= k < |everyone| && k != one.id ensures Values(everyone)[k] == old(Values(everyone))[k] {
        assert everyone[k].id == k && everyone[k] in everyone;
      }
    }

    /** The player's Sitter among those known. */
    method FindSitter(player: nat) returns (who: Sitter?)
      requires Valid()
      ensures match Find(View(), player, 0)
              case None => who == null
              case Some(id) => who != null && Known(who) && who.id == id
    {
      hide Values;
      for k := 0 to |all|
        invariant Find(View(), player, 0) == Find(View(), player, k)
      {
        if all[k].ki == player {
          return all[k];
        }
      }
      who := null;
    }

    /** What a player who comes back says about the score is believed unless the player is in the
        game. */
    method Welcome(who: Sitter, score: int)
      requires Valid() && Known(who)
      modifies who
      ensures Valid()
      ensures View() == old(View()).(
                roster := old(View()).roster[who.id := Seated(old(who.Value()), currentGame, score)])
    {
      hide Values;
      if !(who.currentGame == currentGame && who.score != score) {
        who.score := score;
      }
      if who.currentGame != currentGame {
        who.ResetWins();
      }
      if who.choice != -1 {
        who.choice := -1;
      }
      OneChangedOnly(who);
    }

    method AddSitter(player: nat, score: int) returns (who: Sitter)
      requires Valid()
      modifies this`all, this`everyone
      ensures Valid() && Known(who) && fresh(who) && everyone == old(everyone) + [who] && who.id == |old(everyone)|
      ensures View() == old(View()).(roster := old(View()).roster + [NewPlayer(player, score)],
                                     known := old(View()).known + [|old(View()).roster|])
    {
      hide Values, Ids;
      who := new Sitter(player, score, |everyone|);
      ValuesAppend(everyone, who);
      IdsAppend(all, who);
      SittersUnchanged();
      all := all + [who];
      everyone := everyone + [who];
    }

    method TakeSeat(position: nat, who: Sitter)
      requires Valid() && position < SEATS && Known(who)
      modifies this`sittingCt, sitting
      ensures Valid()
      ensures View() == old(View()).(sittingCt := old(sittingCt) + 1,
          seats := old(View()).seats[position := Some(who.id)])
    {
      hide Values, Seats;
      sittingCt := sittingCt + 1;
      sitting[position] := who;
      SittersUnchanged();
      SeatSet(position);
    }

    method PlayGame(player: nat, position: nat, score: int)
      requires Valid() && position < SEATS
      modifies this`sittingCt, this`all, this`everyone, sitting, everyone
      ensures Valid() && View() == Sit(old(View()), player, position, score)
      ensures forall s | s in everyone :: s in old(everyone) || fresh(s)
    {
      hide View, Find, Seated;
      ViewNumbers();
      ViewKnown();
      if sittingCt >= SEATS || sitting[position] != null {
        return;
      }
      var thisGuy := FindSitter(player);
      if thisGuy == null {
        thisGuy := AddSitter(player, score);
      } else {
        Welcome(thisGuy, score);
      }
      ViewNumbers();
      TakeSeat(position, thisGuy);
    }

    lemma ViewKnown()
      requires Valid()
      ensures |View().roster| == |everyone|
      ensures forall s | s in everyone && Known(s) :: View().roster[s.id] == s.Value()
    {
    }

    // ---------- Messages and timers ----------

    method AnimationFinished(anim: Animation)
      requires Valid()
      modifies this`state, this`pointPool, this`pendingWinnerCt, everyone
      ensures Valid() && View() == AnimationOver(old(View()), anim)
    {
      hide View, Round, ShowWinner;
      ViewNumbers();
      match anim {
        case CountdownSeq =>
          if state.StopWait? {
            HandleRound();
          }
        case ChoiceSeq =>
          if state.AnimWait? {
            state := InGame;
            NumbersChanged();
          } else if state.Winner? {
            HandleWinner();
          }
        case GameWinSeq =>
          if state.WinWait? {
            state := Idle;
            NumbersChanged();
          }
      }
    }

    method HandleTimeout()
      requires Valid()
      modifies this`state, this`pointPool, this`pendingWinnerCt, everyone
      ensures Valid() && View() == TimeUp(old(View()))
    {
      hide View, Round, ShowWinner;
      ViewNumbers();
      if state.Countdown? {
        state := if choiceCt > 1 then StopWait else InGame;
        NumbersChanged();
      } else if state.StopWait? {
        HandleRound();
      } else if state.AnimWait? {
        state := InGame;
        NumbersChanged();
      } else if state.Winner? {
        HandleWinner();
      } else if state.WinWait? {
        state := Idle;
        NumbersChanged();
      }
    }

    /** Every message and timer does what the rules say, and keeps what they keep. */
    method Handle(e: Event)
      requires Valid() && Good(View()) && Proper(View(), e)
      modifies this, sitting, everyone
      ensures Valid() && View() == Step(old(View()), e)
      ensures Good(View()) && Wealth(View()) == Wealth(old(View())) + Gain(old(View()), e)
      ensures forall s | s in everyone :: s in old(everyone) || fresh(s)
    {
      hide View, Good, Wealth, Gain, Sit, Choose, Leave, LeaveAge, AnimationOver, TimeUp;
      GoodStep(View(), e);
      match e {
        case PlayGame(ki, position, score) => PlayGame(ki, position, score);
        case MakeChoice(ki, choice) => MakeChoice(ki, choice);
        case Finished(byOwner, anim) =>
          if byOwner {
            AnimationFinished(anim);
          }
        case LeaveGame(ki) => LeaveTable(ki);
        case PlayerLeft(ki) => PlayerLeft(ki);
        case Timeout => HandleTimeout();
      }
    }
  }

  // ---------- A departure in parts ----------

  function NoChoice(t: Table, i: nat): (t': Table)
    requires Shape(t) && i < SEATS && Sits(t, i)
    ensures Shape(t') && t'.seats == t.seats
  {
    With(t, i, At(t, i).(choice := -1)).(
      choiceCt := if At(t, i).choice >= 0 && MidRound(t.phase) then Less(t.choiceCt) else t.choiceCt)
  }

  function NoFlag(t: Table, i: nat): (t': Table)
    requires Shape(t) && i < SEATS && Sits(t, i)
    ensures Shape(t') && t'.seats == t.seats
  {
    With(t, i, At(t, i).(pending := false)).(
      pendingCt := if At(t, i).pending then Less(t.pendingCt) else t.pendingCt)
  }

  function Stood(t: Table, i: nat): (t': Table)
    requires Shape(t) && i < SEATS && Sits(t, i)
    ensures Shape(t')
  {
    t.(seats := t.seats[i := None], sittingCt := Less(t.sittingCt))
  }

  lemma DepartParts(t: Table, i: nat)
    requires Shape(t) && i < SEATS && Sits(t, i)
    ensures
      var t1 :=
        if t.sittingCt == 1 then Heek.ResetGame(t.(phase := if t.phase.Countdown? then StopWait else Idle)) else t;
      Depart(t, i) == Stood(NoFlag(NoChoice(t1, i), i), i)
  {
  }

  // ---------- One turn of each loop ----------

  lemma BestStep(t: Table, n: Tally, i: nat, best: int)
    requires Shape(t) && i < SEATS
    ensures Best(t, n, i, best)
            == Best(t, n, i + 1, if Sits(t, i) && At(t, i).choice >= 0 then Max(best, Total(n, At(t, i).choice))
                else best)
  {
  }

  lemma BestEnd(t: Table, n: Tally, best: int)
    requires Shape(t)
    ensures Best(t, n, SEATS, best) == best
  {
  }

  lemma MostStep(t: Table, i: nat, most: nat)
    requires Shape(t) && i < SEATS
    ensures MostWon(t, i, most)
            == MostWon(t, i + 1, if Sits(t, i) && At(t, i).pending then Max(most, RoundsWon(At(t, i))) else most)
  {
  }

  lemma MostEnd(t: Table, most: nat)
    requires Shape(t)
    ensures MostWon(t, SEATS, most) == most
  {
  }

  lemma PayStep(t: Table, i: nat)
    requires Shape(t) && i < SEATS
    ensures PayWinner(t, i)
            == if Sits(t, i) && At(t, i).pending
                then With(t, i, At(t, i).(score := At(t, i).score + t.pool)).(pool := 0)
               else PayWinner(t, i + 1)
  {
  }

  lemma PayEnd(t: Table)
    requires Shape(t)
    ensures PayWinner(t, SEATS) == t
  {
  }

  lemma DropCases(t: Table, most: nat, i: nat)
    requires Shape(t) && i < SEATS
    ensures
      var r := DropBehind(t, most, i);
      if Sits(t, i) && At(t, i).pending then
        var out := With(t, i, At(t, i).(pending := false));
        if RoundsWon(At(t, i)) == most then r == (DropBehind(t, most, i + 1).0, DropBehind(t, most, i + 1).1 + 1)
        else if t.pendingCt == 0 then r == DropBehind(out, most, i + 1)
        else if t.pendingCt < 2 then r == DropBehind(t, most, i + 1)
        else r == DropBehind(out.(pendingCt := t.pendingCt - 1), most, i + 1)
      else r == DropBehind(t, most, i + 1)
  {
    hide RoundsWon;
  }

  ghost function Ids(sitters: seq<Sitter>): (r: seq<nat>)
    ensures |r| == |sitters| && forall k | 0 <= k < |r| :: r[k] == sitters[k].id
  {
    if sitters == [] then [] else [sitters[0].id] + Ids(sitters[1..])
  }

  lemma IdsTail(sitters: seq<Sitter>)
    requires sitters != []
    ensures Ids(sitters)[0] == sitters[0].id && Ids(sitters[1..]) == Ids(sitters)[1..]
  {
  }

  lemma IdsAppend(sitters: seq<Sitter>, s: Sitter)
    ensures Ids(sitters + [s]) == Ids(sitters) + [s.id]
  {
  }

  lemma ValuesAppend(sitters: seq<Sitter>, s: Sitter)
    ensures Values(sitters + [s]) == Values(sitters) + [s.Value()]
  {
  }

  /** A whole evening: any messages in any order, timers going off whenever they like. */
  method PlayAll(es: seq<Event>) returns (game: Game)
    requires ProperRun(Start, es)
    ensures fresh(game) && game.Valid() && game.View() == Run(Start, es)
    ensures Good(game.View()) && Wealth(game.View()) == Gains(Start, es)
  {
    hide Good, Wealth, Step, Gain, Proper, ProperRun, Run, Gains;
    GoodStart();
    GoodRun(Start, es);
    game := new Game();
    ghost var t := Start;
    assert es[0..] == es;
    for i := 0 to |es|
      invariant fresh(game) && fresh(game.sitting) && fresh(set s | s in game.everyone)
      invariant game.Valid() && game.View() == t && Good(t) && ProperRun(t, es[i..])
          && Run(t, es[i..]) == Run(Start, es)
    {
      RunStep(t, es, i);
      t := Step(t, es[i]);
      game.Handle(es[i]);
    }
    RunEnd(t, es);
  }

  lemma RunStep(t: Table, es: seq<Event>, i: nat)
    requires Shape(t) && i < |es| && ProperRun(t, es[i..])
    ensures Proper(t, es[i]) && ProperRun(Step(t, es[i]), es[i + 1..])
        && Run(t, es[i..]) == Run(Step(t, es[i]), es[i + 1..])
  {
    hide Step, Proper;
    assert es[i..][0] == es[i] && es[i..][1..] == es[i + 1..];
  }

  lemma RunEnd(t: Table, es: seq<Event>)
    requires Shape(t)
    ensures ProperRun(t, es[|es|..]) && Run(t, es[|es|..]) == t
  {
  }
}

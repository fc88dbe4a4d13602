/** How rounds of Heek are scored, and how a game is won. */
module HeekRounds {
  import opened Wire
  import opened Heek
  import opened HeekSafety

  // ---------- Totals ----------

  function SumTotals(t: Table, n: Tally, i: nat): int
    requires Shape(t) && i <= SEATS
    decreases SEATS - i
  {
    if i == SEATS then 0
    else (if Sits(t, i) && Is(At(t, i), Chose) then Total(n, At(t, i).choice) else 0) + SumTotals(t, n, i + 1)
  }

  lemma {:induction false} SumByChoice(t: Table, n: Tally, i: nat)
    requires Shape(t) && i <= SEATS
    ensures
      var r, p, s := Number(t, Picked(0), i), Number(t, Picked(1), i), Number(t, Picked(2), i);
      && SumTotals(t, n, i) == r * Total(n, 0) + p * Total(n, 1) + s * Total(n, 2)
      && r + p + s == Number(t, Chose, i)
    decreases SEATS - i
  {
    hide Number, Total, Is;
    if i < SEATS {
      SumByChoice(t, n, i + 1);
      NumberStep(t, Picked(0), i);
      NumberStep(t, Picked(1), i);
      NumberStep(t, Picked(2), i);
      NumberStep(t, Chose, i);
      OneOfThree(t, i);
      OneMore(Number(t, Picked(0), i + 1), Total(n, 0));
      OneMore(Number(t, Picked(1), i + 1), Total(n, 1));
      OneMore(Number(t, Picked(2), i + 1), Total(n, 2));
    } else {
      NumberEnd(t);
    }
  }

  lemma NumberStep(t: Table, k: Kind, i: nat)
    requires Shape(t) && i < SEATS
    ensures Number(t, k, i) == Bit(t, k, i) + Number(t, k, i + 1)
  {
  }

  lemma NumberEnd(t: Table)
    requires Shape(t)
    ensures forall k :: Number(t, k, SEATS) == 0
  {
  }

  lemma OneOfThree(t: Table, i: nat)
    requires Shape(t) && i < SEATS
    ensures forall c | 0 <= c <= 2 :: Bit(t, Picked(c), i) == if Sits(t, i) && At(t, i).choice == c then 1 else 0
    ensures Bit(t, Chose, i) == if Sits(t, i) && At(t, i).choice >= 0 then 1 else 0
    ensures Sits(t, i) ==> (Is(At(t, i), Chose) <==> At(t, i).choice >= 0)
  {
  }

  lemma OneMore(r: nat, x: int)
    ensures (r + 1) * x == r * x + x
  {
  }

  /** What some win in a round, others lose. */
  lemma RoundIsZeroSum(t: Table)
    requires Shape(t)
    ensures SumTotals(t, Count(t), 0) == 0
  {
    hide Number, Total;
    SumByChoice(t, Count(t), 0);
    ZeroSum(Count(t));
  }

  lemma ZeroSum(n: Tally)
    ensures n.rocks * Total(n, 0) + n.papers * Total(n, 1) + n.scissors * Total(n, 2) == 0
  {
    var r: int, p: int, s: int := n.rocks, n.papers, n.scissors;
    assert r * (s - p) == r * s - r * p && p * (r - s) == p * r - p * s && s * (p - r) == s * p - s * r;
  }

  /** Paper beats rock, scissors beat paper, rock beats scissors. */
  function Duel(mine: Choice, other: Choice): int {
    if mine < 0 || other < 0 || mine == other then 0 else if (mine - other) % 3 == 1 then 1 else -1
  }

  /** How a choice does against everyone at the table, one by one. */
  function Duels(t: Table, mine: Choice, i: nat): int
    requires Shape(t) && i <= SEATS
    decreases SEATS - i
  {
    if i == SEATS then 0 else (if Sits(t, i) then Duel(mine, At(t, i).choice) else 0) + Duels(t, mine, i + 1)
  }

  lemma {:induction false} DuelsFrom(t: Table, mine: Choice, i: nat)
    requires Shape(t) && i <= SEATS && mine >= 0
    ensures Duels(t, mine, i)
            == Total(Tally(Number(t, Picked(0), i), Number(t, Picked(1), i), Number(t, Picked(2), i)), mine)
    decreases SEATS - i
  {
    hide Number;
    if i == SEATS {
      NumberEnd(t);
    } else {
      DuelsFrom(t, mine, i + 1);
      NumberStep(t, Picked(0), i);
      NumberStep(t, Picked(1), i);
      NumberStep(t, Picked(2), i);
      OneOfThree(t, i);
    }
  }

  /** The total of a choice is what it wins in single duels, less what it loses. */
  lemma TotalsAreDuels(t: Table, mine: Choice)
    requires Shape(t) && mine >= 0
    ensures Total(Count(t), mine) == Duels(t, mine, 0)
  {
    DuelsFrom(t, mine, 0);
  }

  /** The best total is the highest of any. */
  lemma {:induction false} BestIsBest(t: Table, n: Tally, i: nat, best: int)
    requires Shape(t) && i <= SEATS
    ensures
      var b := Best(t, n, i, best);
      && b >= best
      && (forall j | i <= j < SEATS && Sits(t, j) && Is(At(t, j), Chose) :: Total(n, At(t, j).choice) <= b)
      && (b == best
          || exists j :: i <= j < SEATS && Sits(t, j) && Is(At(t, j), Chose) && Total(n, At(t, j).choice) == b)
    decreases SEATS - i
  {
    if i < SEATS {
      BestIsBest(t, n, i + 1, if Sits(t, i) && Is(At(t, i), Chose) then Max(best, Total(n, At(t, i).choice)) else best);
    }
  }

  /** With five seats, all who win a round have made the same choice. */
  lemma WinnersAgree(t: Table, best: int, i: nat, j: nat)
    requires Shape(t) && i < SEATS && j < SEATS && Sits(t, i) && Sits(t, j)
    requires WinsRound(At(t, i), Count(t), best) && WinsRound(At(t, j), Count(t), best)
    ensures At(t, i).choice == At(t, j).choice
  {
    hide Number;
    var a, b := At(t, i).choice, At(t, j).choice;
    SumByChoice(t, Count(t), 0);
    assert Bit(t, Picked(a), i) == 1 && Bit(t, Picked(b), j) == 1;
    NumberPositive(t, Picked(a), i, 0);
    NumberPositive(t, Picked(b), j, 0);
  }

  /** With six it would not be so: three rocks, a paper and two scissors. */
  lemma SixCouldDisagree()
    ensures var n := Tally(3, 1, 2); Total(n, 0) == Total(n, 1) == 1 && Total(n, 2) < 1
  {
  }

  // ---------- Crediting ----------

  /** Only rounds won and flags differ. */
  predicate OnlyRounds(t: Table, t': Table)
    requires Shape(t)
  {
    && Outline(t, t')
    && (forall id | 0 <= id < |t.roster| ::
          t'.roster[id] == t.roster[id].(wins := t'.roster[id].wins, pending := t'.roster[id].pending))
  }

  lemma OnlyRoundsThen(t: Table, mid: Table, t': Table)
    requires Shape(t) && Shape(mid) && OnlyRounds(t, mid) && OnlyRounds(mid, t')
    ensures OnlyRounds(t, t')
  {
    OutlineThen(t, mid, t');
  }

  lemma OneChanged(t: Table, t': Table, i: nat, p: Player)
    requires Shape(t) && Apart(t) && i < SEATS && Sits(t, i) && Changes(t, t', i, p)
    requires p == At(t, i).(wins := p.wins, pending := p.pending)
    ensures OnlyRounds(t, t') && Shape(t') && Apart(t')
    ensures forall j | 0 <= j < SEATS && Sits(t, j) :: Sits(t', j) && At(t', j) == if j == i then p else At(t, j)
    ensures forall k: Kind, j | 0 <= j < SEATS && j != i :: Bit(t', k, j) == Bit(t, k, j)
    ensures forall k: Kind :: Bit(t', k, i) == if Is(p, k) then 1 else 0
  {
    ChangeKeeps(t, t', i, p);
    SeatedIs(t, i);
  }

  function Credited(p: Player, n: Tally, best: int, open: bool): Player {
    if !WinsRound(p, n, best) then p
    else
      var q := Credit(p);
      if q.wins[q.choice] > 2 && open then q.(pending := true) else q
  }

  predicate GameWinner(p: Player, n: Tally, best: int) {
    WinsRound(p, n, best) && Credit(p).wins[p.choice] > 2
  }

  function CreditOne(t: Table, n: Tally, best: int, i: nat): (t': Table)
    requires Shape(t) && i < SEATS
    ensures Shape(t')
  {
    if Sits(t, i) then With(t, i, Credited(At(t, i), n, best, t.pendingCt == 0)) else t
  }

  lemma CreditAllStep(t: Table, n: Tally, best: int, i: nat)
    requires Shape(t) && i < SEATS
    ensures
      var (t', winners) := CreditAll(CreditOne(t, n, best, i), n, best, i + 1);
      CreditAll(t, n, best, i) == (t', winners + if Sits(t, i) && GameWinner(At(t, i), n, best) then 1 else 0)
  {
    hide Total, RoundsWon, Number;
    if Sits(t, i) {
      SameIfSame(t, i);
    }
  }

  lemma CreditOneMeans(t: Table, n: Tally, best: int, i: nat)
    requires Shape(t) && Apart(t) && i < SEATS
    ensures
      var t' := CreditOne(t, n, best, i);
      && OnlyRounds(t, t') && Apart(t') && t' == t.(roster := t'.roster)
      && (forall j | 0 <= j < SEATS && Sits(t, j) ::
            At(t', j) == if j == i then Credited(At(t, j), n, best, t.pendingCt == 0) else At(t, j))
      && Number(t', Flagged, i + 1) == Number(t, Flagged, i + 1)
      && (t.pendingCt == 0 && Bit(t, Flagged, i) == 0 ==>
            Bit(t', Flagged, i) == if Sits(t, i) && GameWinner(At(t, i), n, best) then 1 else 0)
  {
    hide Number;
    if Sits(t, i) {
      OneChanged(t, CreditOne(t, n, best, i), i, Credited(At(t, i), n, best, t.pendingCt == 0));
    }
    NumberSame(t, CreditOne(t, n, best, i), Flagged, i + 1);
  }

  lemma {:induction false} CreditAllMeans(t: Table, n: Tally, best: int, i: nat)
    requires Shape(t) && Apart(t) && i <= SEATS
    ensures
      var (t', winners) := CreditAll(t, n, best, i);
      && OnlyRounds(t, t') && t' == t.(roster := t'.roster)
      && (forall j | 0 <= j < SEATS && Sits(t, j) ::
            At(t', j) == if j < i then At(t, j) else Credited(At(t, j), n, best, t.pendingCt == 0))
      && (t.pendingCt == 0 && Number(t, Flagged, i) == 0 ==> winners == Number(t', Flagged, i))
    decreases SEATS - i
  {
    hide CreditAll, CreditOne, Credited, OnlyRounds, Number, Apart, GameWinner;
    if i == SEATS {
      NothingChanged(t);
      assert CreditAll(t, n, best, i) == (t, 0) by { CreditAllEnd(t, n, best); }
    } else {
      var t1 := CreditOne(t, n, best, i);
      CreditAllStep(t, n, best, i);
      CreditOneMeans(t, n, best, i);
      CreditAllMeans(t1, n, best, i + 1);
      var t' := CreditAll(t1, n, best, i + 1).0;
      OnlyRoundsThen(t, t1, t');
      NumberStep(t, Flagged, i);
      NumberStep(t', Flagged, i);
    }
  }

  lemma CreditAllEnd(t: Table, n: Tally, best: int)
    requires Shape(t)
    ensures CreditAll(t, n, best, SEATS) == (t, 0)
  {
  }

  lemma NothingChanged(t: Table)
    requires Shape(t)
    ensures OnlyRounds(t, t) && forall k :: Number(t, k, SEATS) == 0
  {
  }

  lemma SameIfSame(t: Table, i: nat)
    requires Shape(t) && i < SEATS && Sits(t, i)
    ensures With(t, i, At(t, i)) == t
  {
    assert t.roster[t.seats[i].value := At(t, i)] == t.roster;
  }

  // ---------- Sudden death ----------

  /** A player in the running from the i-th seat on has won as many rounds as any. */
  predicate Top(t: Table, most: nat, i: nat)
    requires Shape(t)
  {
    exists j :: i <= j < SEATS && Sits(t, j) && At(t, j).pending && RoundsWon(At(t, j)) == most
  }

  lemma {:induction false} MostWonMeans(t: Table, i: nat, most: nat)
    requires Shape(t) && i <= SEATS
    ensures
      var m := MostWon(t, i, most);
      && m >= most && (m == most || Top(t, m, i))
      && (forall j | i <= j < SEATS && Sits(t, j) && At(t, j).pending :: RoundsWon(At(t, j)) <= m)
    decreases SEATS - i
  {
    if i < SEATS {
      MostWonMeans(t, i + 1, if Sits(t, i) && At(t, i).pending then Max(most, RoundsWon(At(t, i))) else most);
    }
  }

  function Dropped(p: Player, most: nat): Player {
    if p.pending && RoundsWon(p) != most then p.(pending := false) else p
  }

  function DropOne(t: Table, most: nat, i: nat): (t': Table)
    requires Shape(t) && i < SEATS
    ensures Shape(t')
  {
    if Sits(t, i) && At(t, i).pending && RoundsWon(At(t, i)) != most then
      With(t, i, Dropped(At(t, i), most)).(pendingCt := Less(t.pendingCt))
    else t
  }

  lemma DropBehindStep(t: Table, most: nat, i: nat)
    requires Shape(t) && i < SEATS
    requires t.pendingCt == 1 && Sits(t, i) && At(t, i).pending ==> RoundsWon(At(t, i)) == most
    ensures
      var (t', winners) := DropBehind(DropOne(t, most, i), most, i + 1);
      DropBehind(t, most, i)
      == (t', winners + if Sits(t, i) && At(t, i).pending && RoundsWon(At(t, i)) == most then 1 else 0)
  {
    hide RoundsWon;
    assert t.(pendingCt := t.pendingCt) == t;
  }

  lemma DropBehindEnd(t: Table, most: nat)
    requires Shape(t)
    ensures DropBehind(t, most, SEATS) == (t, 0)
  {
  }

  lemma DropOneMeans(t: Table, most: nat, i: nat)
    requires Shape(t) && Apart(t) && i < SEATS
    ensures
      var t' := DropOne(t, most, i);
      && OnlyRounds(t, t') && Apart(t') && t' == t.(roster := t'.roster, pendingCt := t'.pendingCt)
      && (forall j | 0 <= j < SEATS && Sits(t, j) ::
            At(t', j) == if j == i then Dropped(At(t, j), most) else At(t, j))
      && Number(t', Flagged, i + 1) == Number(t, Flagged, i + 1)
      && t'.pendingCt == (if Bit(t', Flagged, i) < Bit(t, Flagged, i) then Less(t.pendingCt) else t.pendingCt)
      && Bit(t', Flagged, i) == if Sits(t, i) && At(t, i).pending && RoundsWon(At(t, i)) == most then 1 else 0
  {
    hide Number;
    var t' := DropOne(t, most, i);
    if t' != t {
      OneChanged(t, t', i, Dropped(At(t, i), most));
    }
    NumberSame(t, t', Flagged, i + 1);
  }

  /** There are always enough players in the running: everyone behind is dropped. */
  lemma {:induction false} DropBehindMeans(t: Table, most: nat, i: nat, kept: nat)
    requires Shape(t) && Apart(t) && i <= SEATS
    requires t.pendingCt == 0 || t.pendingCt == kept + Number(t, Flagged, i)
    requires kept > 0 || Top(t, most, i)
    ensures
      var (t', winners) := DropBehind(t, most, i);
      && OnlyRounds(t, t') && t' == t.(roster := t'.roster, pendingCt := t'.pendingCt)
      && (forall j | 0 <= j < SEATS && Sits(t, j) ::
            At(t', j) == if j < i then At(t, j) else Dropped(At(t, j), most))
      && winners == Number(t', Flagged, i) && kept + winners > 0
      && t'.pendingCt == if t.pendingCt == 0 then 0 else kept + winners
    decreases SEATS - i
  {
    hide DropBehind, DropOne, Dropped, OnlyRounds, Number, Apart;
    if i == SEATS {
      NothingChanged(t);
      DropBehindEnd(t, most);
    } else {
      NumberStep(t, Flagged, i);
      if Sits(t, i) && At(t, i).pending && RoundsWon(At(t, i)) != most {
        TopLater(t, most, i, kept);
      }
      var t1 := DropOne(t, most, i);
      DropOneMeans(t, most, i);
      TopStill(t, t1, most, i + 1);
      DropBehindMeans(t1, most, i + 1, kept + Bit(t1, Flagged, i));
      var t' := DropBehind(t1, most, i + 1).0;
      OnlyRoundsThen(t, t1, t');
      NumberStep(t', Flagged, i);
      DropBehindStep(t, most, i);
    }
  }

  lemma TopLater(t: Table, most: nat, i: nat, kept: nat)
    requires Shape(t) && i < SEATS && Sits(t, i) && At(t, i).pending && RoundsWon(At(t, i)) != most
    requires kept > 0 || Top(t, most, i)
    requires t.pendingCt == 0 || t.pendingCt == kept + Number(t, Flagged, i)
    ensures kept > 0 || Top(t, most, i + 1)
    ensures t.pendingCt == 0 || t.pendingCt >= 2
  {
    if kept == 0 {
      var j :| i <= j < SEATS && Sits(t, j) && At(t, j).pending && RoundsWon(At(t, j)) == most;
      assert Bit(t, Flagged, j) == 1;
      NumberPositive(t, Flagged, j, i + 1);
    }
  }

  lemma TopStill(t: Table, t': Table, most: nat, i: nat)
    requires Shape(t) && Shape(t')
    requires forall j | i <= j < SEATS && Sits(t, j) :: Sits(t', j) && At(t', j) == At(t, j)
    ensures Top(t, most, i) ==> Top(t', most, i)
  {
  }

  // ---------- The pot ----------

  /** The i-th player gets the whole pot, is the only one in the running, and has won three rounds
      with one choice. */
  predicate PaidAlone(t: Table, t': Table, i: nat)
    requires Shape(t) && Shape(t')
  {
    && i < SEATS && Sits(t, i) && t'.seats == t.seats && |t'.roster| == |t.roster|
    && At(t', i).pending && ThreeOfAKind(At(t', i)) && At(t', i).score == At(t, i).score + t.pool && t'.pool == 0
    && (forall j | 0 <= j < SEATS && j != i && Sits(t, j) :: !At(t', j).pending)
    && (forall id | 0 <= id < |t.roster| && id != t.seats[i].value :: t'.roster[id].score == t.roster[id].score)
  }

  predicate PotPaid(t: Table, t': Table)
    requires Shape(t) && Shape(t')
  {
    exists i | 0 <= i < SEATS :: PaidAlone(t, t', i)
  }

  predicate SamePoints(t: Table, t': Table) {
    && t'.pool == t.pool && |t'.roster| == |t.roster|
    && forall id | 0 <= id < |t.roster| :: t'.roster[id].score == t.roster[id].score
  }

  lemma {:induction false} PayWinnerMeans(t: Table, i: nat) returns (k: nat)
    requires Shape(t) && Apart(t) && i <= SEATS && Number(t, Flagged, i) == 1
    ensures i <= k < SEATS && Sits(t, k) && At(t, k).pending
    ensures forall j | i <= j < SEATS && j != k && Sits(t, j) :: !At(t, j).pending
    ensures PayWinner(t, i) == With(t, k, At(t, k).(score := At(t, k).score + t.pool)).(pool := 0)
    decreases SEATS - i
  {
    if Sits(t, i) && At(t, i).pending {
      k := i;
      forall j | i < j < SEATS && Sits(t, j) ensures !At(t, j).pending {
        if At(t, j).pending {
          assert Bit(t, Flagged, j) == 1;
          NumberPositive(t, Flagged, j, i + 1);
        }
      }
    } else {
      k := PayWinnerMeans(t, i + 1);
    }
  }

  /** What the candidates step leaves: those in the running, counted, and level if any are left. */
  predicate Counted(t: Table, t': Table, winners: nat)
    requires Shape(t)
  {
    && Shape(t') && Apart(t') && OnlyRounds(t, t') && t' == t.(roster := t'.roster, pendingCt := t'.pendingCt)
    && winners == Number(t', Flagged, 0)
    && (t'.pendingCt == 0 || t'.pendingCt == winners)
    && (t.pendingCt > 0 ==> t'.pendingCt > 0)
    && RunnersOk(t')
  }

  predicate RunnersOk(t: Table)
    requires Shape(t)
  {
    && (forall j | 0 <= j < SEATS && Sits(t, j) && At(t, j).pending :: ThreeOfAKind(At(t, j)))
    && (forall j | 0 <= j < SEATS && Sits(t, j) && At(t, j).pending :: At(t, j).game == t.game)
    && (forall j, k | 0 <= j < SEATS && 0 <= k < SEATS && Sits(t, j) && Sits(t, k) && At(t, j).pending
         && At(t, k).pending ::
          RoundsWon(At(t, j)) == RoundsWon(At(t, k)))
  }

  lemma CandidatesMean(t: Table, n: Tally, best: int)
    requires Good(t) && t.phase.StopWait?
    ensures
      var (t1, w) := CreditAll(t, n, best, 0);
      var (t2, winners) := Candidates(t1, w);
      Counted(t, t2, winners)
  {
    hide CreditAll, DropBehind, MostWon, Number, OnlyRounds, Total, PotOk, RosterOk, NoneFreed;
    var (t1, w) := CreditAll(t, n, best, 0);
    CreditAllMeans(t, n, best, 0);
    OnlyRoundsApart(t, t1);
    CreditedRunners(t, t1, n, best);
    CreditedNumber(t, t1, n, best);
    if w == 1 && t1.pendingCt == 0 {
      OneIsLevel(t1);
    } else if w > 0 || t1.pendingCt > 0 {
      var most := MostWon(t1, 0, 0);
      MostWonMeans(t1, 0, 0);
      SomeTop(t1, most);
      DropBehindMeans(t1, most, 0, 0);
      var t2 := DropBehind(t1, most, 0).0;
      OnlyRoundsThen(t, t1, t2);
      OnlyRoundsApart(t, t2);
      DroppedRunners(t1, t2, most);
    } else {
      OneIsLevel(t1);
    }
  }

  lemma OnlyRoundsApart(t: Table, t': Table)
    requires Shape(t) && Apart(t) && OnlyRounds(t, t')
    ensures Shape(t') && Apart(t') && |t'.roster| == |t.roster| && t'.seats == t.seats && t'.game == t.game
    ensures forall j | 0 <= j < SEATS && Sits(t, j) ::
              Sits(t', j) && KeepsPay(At(t, j), At(t', j)) && At(t', j).choice == At(t, j).choice
  {
    assert Shape(t');
    forall j | 0 <= j < SEATS && Sits(t, j)
      ensures Sits(t', j) && KeepsPay(At(t, j), At(t', j)) && At(t', j).choice == At(t, j).choice
    {
    }
    forall j | 0 <= j < SEATS && Sits(t', j) ensures Sits(t, j) && At(t', j).ki == At(t, j).ki {
    }
  }

  lemma CreditedThree(p: Player, n: Tally, best: int, open: bool)
    requires p.pending ==> ThreeOfAKind(p)
    ensures var q := Credited(p, n, best, open);
            && (q.pending ==> ThreeOfAKind(q))
            && (q.pending && !p.pending ==> open && p.choice >= 0)
            && (p.pending ==> q.pending)
  {
    var q := Credited(p, n, best, open);
    if p.pending {
      var c :| 0 <= c < 3 && p.wins[c] > 2;
      assert q.wins[c] > 2;
    } else if q.pending {
      assert q.wins[p.choice] > 2;
    }
  }

  lemma CreditedRunners(t: Table, t1: Table, n: Tally, best: int)
    requires Good(t) && t.phase.StopWait? && Shape(t1) && t1 == t.(roster := t1.roster) && |t1.roster| == |t.roster|
    requires forall j | 0 <= j < SEATS && Sits(t, j) :: At(t1, j) == Credited(At(t, j), n, best, t.pendingCt == 0)
    ensures forall j | 0 <= j < SEATS && Sits(t1, j) && At(t1, j).pending ::
              ThreeOfAKind(At(t1, j)) && At(t1, j).game == t.game && (t.pendingCt > 0 ==> At(t, j).pending)
    ensures t.pendingCt > 0 ==> Number(t1, Flagged, 0) == Number(t, Flagged, 0)
  {
    hide Number, Credited, ThreeOfAKind, PotOk, RosterOk, NoneFreed, Apart;
    forall j | 0 <= j < SEATS && Sits(t1, j)
      ensures At(t1, j).pending ==>
                ThreeOfAKind(At(t1, j)) && At(t1, j).game == t.game && (t.pendingCt > 0 ==> At(t, j).pending)
      ensures t.pendingCt > 0 ==> Bit(t1, Flagged, j) == Bit(t, Flagged, j)
    {
      CreditedThree(At(t, j), n, best, t.pendingCt == 0);
      CreditedKeeps(At(t, j), n, best, t.pendingCt == 0);
    }
    if t.pendingCt > 0 {
      NumberSame(t, t1, Flagged, 0);
    }
  }

  lemma CreditedKeeps(p: Player, n: Tally, best: int, open: bool)
    ensures KeepsPay(p, Credited(p, n, best, open))
  {
  }

  /** With nobody in the running before, the winners of the round are those in the running now. */
  lemma CreditedNumber(t: Table, t1: Table, n: Tally, best: int)
    requires Good(t) && t.phase.StopWait? && t1 == CreditAll(t, n, best, 0).0
    ensures t.pendingCt == 0 ==> CreditAll(t, n, best, 0).1 == Number(t1, Flagged, 0)
  {
    hide Number, CreditAll, OnlyRounds;
    CreditAllMeans(t, n, best, 0);
  }

  lemma OneIsLevel(t: Table)
    requires Shape(t) && Number(t, Flagged, 0) <= 1
    ensures forall j, k | 0 <= j < k < SEATS && Sits(t, j) && Sits(t, k) :: !(At(t, j).pending && At(t, k).pending)
  {
    forall j, k | 0 <= j < k < SEATS && Sits(t, j) && Sits(t, k) ensures !(At(t, j).pending && At(t, k).pending) {
      if At(t, j).pending && At(t, k).pending {
        assert Bit(t, Flagged, j) == 1 && Bit(t, Flagged, k) == 1;
        NumberTwo(t, Flagged, j, k, 0);
      }
    }
  }

  lemma {:induction false} NumberTwo(t: Table, kind: Kind, j: nat, k: nat, from: nat)
    requires Shape(t) && from <= j < k < SEATS && Bit(t, kind, j) == 1 && Bit(t, kind, k) == 1
    ensures Number(t, kind, from) >= 2
    decreases j - from
  {
    if from < j {
      NumberTwo(t, kind, j, k, from + 1);
    } else {
      NumberPositive(t, kind, k, j + 1);
    }
  }

  lemma SomeTop(t: Table, most: nat)
    requires Shape(t) && Number(t, Flagged, 0) > 0
    requires most == 0 || Top(t, most, 0)
    requires forall j | 0 <= j < SEATS && Sits(t, j) && At(t, j).pending :: RoundsWon(At(t, j)) <= most
    ensures Top(t, most, 0)
  {
    var j := NumberWitness(t, Flagged, 0);
    assert RoundsWon(At(t, j)) <= most;
  }

  lemma {:induction false} NumberWitness(t: Table, k: Kind, from: nat) returns (j: nat)
    requires Shape(t) && from <= SEATS && Number(t, k, from) > 0
    ensures from <= j < SEATS && Sits(t, j) && Is(At(t, j), k)
    decreases SEATS - from
  {
    if Sits(t, from) && Is(At(t, from), k) {
      j := from;
    } else {
      j := NumberWitness(t, k, from + 1);
    }
  }

  lemma DroppedRunners(t: Table, t': Table, most: nat)
    requires Shape(t) && Shape(t') && t'.seats == t.seats && t'.game == t.game
    requires forall j | 0 <= j < SEATS && Sits(t, j) :: At(t', j) == Dropped(At(t, j), most)
    requires forall j | 0 <= j < SEATS && Sits(t, j) && At(t, j).pending ::
               ThreeOfAKind(At(t, j)) && At(t, j).game == t.game
    ensures RunnersOk(t')
  {
    hide RoundsWon, ThreeOfAKind;
    forall j | 0 <= j < SEATS && Sits(t', j) && At(t', j).pending
      ensures ThreeOfAKind(At(t', j)) && At(t', j).game == t'.game && RoundsWon(At(t', j)) == most
    {
      assert At(t', j) == At(t, j);
    }
  }

  // ---------- A whole round ----------

  /** A round that is played out: either one player takes the pot, or nobody's points change. */
  lemma SettleMeans(t: Table, t2: Table, winners: nat)
    requires Good(t) && t.phase.StopWait? && Counted(t, t2, winners)
    ensures
      var t' := Settle(t2, winners);
      && Good(t') && Wealth(t') == Wealth(t)
      && (t'.phase.Winner? || t'.phase.AnimWait?)
      && (t'.phase.Winner? <==> winners == 1)
      && (if t'.phase.Winner? then PotPaid(t, t') else SamePoints(t, t'))
  {
    hide Number, Scores, Paid, AtTable, Apart, NoneFreed, RosterOk, RunnersOk, PotOk, OnlyRounds;
    hide PayWinner, Scored, PaidAlone, Good, Wealth;
    var t' := Settle(t2, winners);
    RoundKeeps(t, t2);
    if winners == 1 {
      var t3 := t2.(pendingCt := 0);
      SameSeats(t2, t3);
      var k := PayWinnerMeans(t3, 0);
      assert forall j | 0 <= j < SEATS && Sits(t2, j) :: Sits(t3, j) && At(t2, j) == At(t3, j);
      WinnerGood(t2, t', k);
      WinnerPaid(t, t2, t', k);
      assert PaidAlone(t, t', k);
    } else {
      SettledOn(t2, t');
    }
  }

  /** What a table satisfies in the middle of scoring a round. */
  predicate Scored(t: Table) {
    && Shape(t) && t.phase.StopWait? && Apart(t) && NoneFreed(t) && RosterOk(t) && PotOk(t) && RunnersOk(t)
    && t.sittingCt == Number(t, Occupied, 0) && t.choiceCt == Number(t, Chose, 0)
    && (forall j | 0 <= j < SEATS && Sits(t, j) && At(t, j).choice >= 0 :: At(t, j).game == t.game)
  }

  lemma SettledOn(t: Table, t': Table)
    requires Scored(t) && t' == t.(pendingCt := Number(t, Flagged, 0), phase := AnimWait)
    ensures Good(t') && Wealth(t') == Wealth(t)
  {
    hide Number, Scores, Paid, AtTable, Apart, NoneFreed, ThreeOfAKind, RoundsWon;
    SameSeats(t, t');
    assert forall j | 0 <= j < SEATS && Sits(t', j) :: Sits(t, j) && At(t', j) == At(t, j);
  }

  lemma WinnerGood(t: Table, t': Table, k: nat)
    requires Scored(t) && k < SEATS && Sits(t, k) && Number(t, Flagged, 0) == 1
    requires t' == With(t, k, At(t, k).(score := At(t, k).score + t.pool)).(pool := 0, pendingCt := 0, phase := Winner)
    ensures Good(t') && Wealth(t') == Wealth(t)
  {
    hide Number, Scores, Paid, AtTable, Apart, NoneFreed, RoundsWon;
    var p := At(t, k).(score := At(t, k).score + t.pool);
    ChangeKeeps(t, t', k, p);
    SeatedIs(t, k);
    NumberChanges(t, t', Occupied, k, 0);
    NumberChanges(t, t', Chose, k, 0);
    NumberChanges(t, t', Flagged, k, 0);
    ScoresUpdate(t.roster, t.seats[k].value, p);
    WinnerRunners(t, t', k, p);
  }

  lemma WinnerRunners(t: Table, t': Table, k: nat, p: Player)
    requires Shape(t) && RunnersOk(t) && k < SEATS && Sits(t, k) && Shape(t') && t'.seats == t.seats
    requires p == At(t, k).(score := p.score) && t'.game == t.game
    requires forall j | 0 <= j < SEATS && Sits(t, j) :: Sits(t', j) && At(t', j) == if j == k then p else At(t, j)
    requires forall j | 0 <= j < SEATS && Sits(t, j) && At(t, j).choice >= 0 :: At(t, j).game == t.game
    ensures PlayersOk(t')
  {
    assert ThreeOfAKind(p) == ThreeOfAKind(At(t, k));
    hide ThreeOfAKind;
    forall j | 0 <= j < SEATS && Sits(t', j)
      ensures Sits(t, j) && At(t', j) == At(t, j).(score := At(t', j).score)
      ensures ThreeOfAKind(At(t', j)) == ThreeOfAKind(At(t, j))
    {
    }
  }

  lemma WinnerPaid(t: Table, t2: Table, t': Table, k: nat)
    requires Shape(t) && Shape(t2) && Apart(t2) && OnlyRounds(t, t2) && t2.pool == t.pool && RunnersOk(t2)
    requires k < SEATS && Sits(t2, k) && At(t2, k).pending
    requires forall j | 0 <= j < SEATS && j != k && Sits(t2, j) :: !At(t2, j).pending
    requires t' == With(t2, k, At(t2, k).(score := At(t2, k).score + t2.pool)).(pool := 0, pendingCt := 0,
        phase := Winner)
    ensures PaidAlone(t, t', k)
  {
    var p := At(t2, k).(score := At(t2, k).score + t2.pool);
    ChangeKeeps(t2, t', k, p);
    assert ThreeOfAKind(p) == ThreeOfAKind(At(t2, k));
    hide ThreeOfAKind;
    assert forall j | 0 <= j < SEATS && Sits(t, j) :: Sits(t2, j);
  }

  /** What crediting and dropping leave alone. */
  lemma RoundKeeps(t: Table, t2: Table)
    requires Good(t) && t.phase.StopWait? && Shape(t2) && OnlyRounds(t, t2)
    requires t2 == t.(roster := t2.roster, pendingCt := t2.pendingCt)
    ensures (RunnersOk(t2) ==> Scored(t2)) && Wealth(t2) == Wealth(t) && SamePoints(t, t2)
  {
    hide Number, Scores, Paid, AtTable, Apart, NoneFreed;
    OnlyRoundsApart(t, t2);
    OutlineKeeps(t, t2);
    ScoresSame(t.roster, t2.roster);
    forall j | 0 <= j < SEATS ensures Bit(t2, Chose, j) == Bit(t, Chose, j) {
      if Sits(t, j) {
        assert At(t2, j).choice == At(t, j).choice;
      }
    }
    NumberSame(t, t2, Chose, 0);
  }

  /** handle_round: either there are not enough choices, or the round is played out. */
  lemma RoundOutcome(t: Table)
    requires Good(t) && t.phase.StopWait?
    ensures
      var t' := Round(t);
      && Good(t') && Wealth(t') == Wealth(t)
      && (t'.phase.InGame? || t'.phase.AnimWait? || t'.phase.Winner?)
      && (if t'.phase.Winner? then PotPaid(t, t') else SamePoints(t, t'))
      && (t'.phase.InGame? <==> t.choiceCt <= 1)
  {
    hide Number, CreditAll, Candidates, Settle, Best, Total, Wealth, Counted, PaidAlone;
    var n := Count(t);
    SumByChoice(t, n, 0);
    if t.choiceCt <= 1 {
      GoodPhase(t, InGame);
    } else {
      var best := Best(t, n, 0, -5);
      var (t1, w) := CreditAll(t, n, best, 0);
      var (t2, winners) := Candidates(t1, w);
      CandidatesMean(t, n, best);
      SettleMeans(t, t2, winners);
    }
  }

  /** Changes of phase that need no more than that. */
  lemma GoodPhase(t: Table, phase: Phase)
    requires Good(t)
    requires phase == t.phase || (PotOpen(t.phase) && PotOpen(phase) && (MidRound(phase) ==> MidRound(t.phase)))
             || (t.phase.WinWait? && phase.Idle?)
    ensures Good(t.(phase := phase)) && Wealth(t.(phase := phase)) == Wealth(t)
  {
    hide Number, Scores, Paid, AtTable, Apart, NoneFreed, ThreeOfAKind, RoundsWon;
    var t' := t.(phase := phase);
    SameSeats(t, t');
    assert forall j | 0 <= j < SEATS && Sits(t', j) :: Sits(t, j) && At(t', j) == At(t, j);
  }

  // ---------- Showing the winner ----------

  lemma {:induction false} NoFlagsMeans(t: Table, i: nat)
    requires Shape(t) && Apart(t) && i <= SEATS
    ensures
      var t' := NoFlags(t, i);
      && OnlyRounds(t, t') && t' == t.(roster := t'.roster)
      && (forall j | 0 <= j < SEATS && Sits(t, j) ::
            At(t', j) == if j < i then At(t, j) else At(t, j).(pending := false))
    decreases SEATS - i
  {
    hide OnlyRounds, Apart;
    if i == SEATS {
      NothingChanged(t);
    } else {
      var t1 := if Sits(t, i) && At(t, i).pending then With(t, i, At(t, i).(pending := false)) else t;
      if Sits(t, i) && At(t, i).pending {
        OneChanged(t, t1, i, At(t, i).(pending := false));
      } else {
        NothingChanged(t);
      }
      NoFlagsMeans(t1, i + 1);
      OnlyRoundsThen(t, t1, NoFlags(t, i));
    }
  }

  lemma GoodShowWinner(t: Table)
    requires Good(t) && t.phase.Winner?
    ensures Good(ShowWinner(t)) && Wealth(ShowWinner(t)) == Wealth(t)
  {
    hide Number, Scores, Paid, AtTable, Apart, NoneFreed, ThreeOfAKind, RoundsWon, NoFlags;
    NoFlagsMeans(t, 0);
    var t' := ShowWinner(t);
    assert OnlyRounds(t, t');
    OnlyRoundsApart(t, t');
    OutlineKeeps(t, t');
    ScoresSame(t.roster, t'.roster);
    forall j | 0 <= j < SEATS ensures Bit(t', Chose, j) == Bit(t, Chose, j) && Bit(t', Flagged, j) == 0 {
    }
    NumberSame(t, t', Chose, 0);
    NumberZero(t', Flagged, 0);
  }

  // ---------- Every step, every run ----------

  /** What a step adds to the points in the game: players who sit down bring points, those who have paid
      only if they have been forgotten (HeekList.BringsExactly), and only the last player at the table
      leaving the age takes the pot away. */
  function Gain(t: Table, e: Event): int
    requires Shape(t) && Proper(t, e)
  {
    match e
    case PlayGame(ki, position, score) => SitGain(t, ki, position, score)
    case PlayerLeft(ki) => if SeatOf(t, ki, 0).Some? && t.sittingCt == 1 then 0 - t.pool else 0
    case _ => 0
  }

  lemma GoodStep(t: Table, e: Event)
    requires Good(t) && Proper(t, e)
    ensures Good(Step(t, e)) && Wealth(Step(t, e)) == Wealth(t) + Gain(t, e)
  {
    hide Apart, RosterOk, NoneFreed, PlayersOk, PotOk, CountersOk, Wealth;
    hide Sit, Choose, Leave, LeaveAge, Round, ShowWinner, SitGain;
    match e {
      case PlayGame(ki, position, score) =>
        GoodSit(t, ki, position, score);
        SitWealth(t, ki, position, score);
      case MakeChoice(ki, choice) => GoodChoose(t, ki, choice);
      case LeaveGame(ki) => GoodLeave(t, ki);
      case PlayerLeft(ki) => GoodLeaveAge(t, ki);
      case _ => GoodTimers(t);
    }
  }

  lemma GoodTimers(t: Table)
    requires Good(t)
    ensures Good(TimeUp(t)) && Wealth(TimeUp(t)) == Wealth(t)
    ensures forall anim :: Good(AnimationOver(t, anim)) && Wealth(AnimationOver(t, anim)) == Wealth(t)
  {
    hide Apart, RosterOk, NoneFreed, PlayersOk, PotOk, CountersOk, Wealth, Round, ShowWinner;
    match t.phase {
      case Countdown =>
        GoodPhase(t, StopWait);
        GoodPhase(t, InGame);
      case StopWait => RoundOutcome(t);
      case AnimWait => GoodPhase(t, InGame);
      case Winner => GoodShowWinner(t);
      case WinWait => GoodPhase(t, Idle);
      case _ =>
    }
  }

  ghost predicate ProperRun(t: Table, es: seq<Event>)
    requires Shape(t)
    decreases |es|
  {
    es == [] || (Proper(t, es[0]) && ProperRun(Step(t, es[0]), es[1..]))
  }

  function Run(t: Table, es: seq<Event>): (t': Table)
    requires Shape(t) && ProperRun(t, es)
    ensures Shape(t')
    decreases |es|
  {
    if es == [] then t else Run(Step(t, es[0]), es[1..])
  }

  function Gains(t: Table, es: seq<Event>): int
    requires Shape(t) && ProperRun(t, es)
    decreases |es|
  {
    if es == [] then 0 else Gain(t, es[0]) + Gains(Step(t, es[0]), es[1..])
  }

  /** Over any run, whatever is sent and whenever timers go off: the counters are right, and points
      only come with players and go with the last one. */
  lemma {:induction false} GoodRun(t: Table, es: seq<Event>)
    requires Good(t) && ProperRun(t, es)
    ensures Good(Run(t, es)) && Wealth(Run(t, es)) == Wealth(t) + Gains(t, es)
    decreases |es|
  {
    hide Apart, RosterOk, NoneFreed, PlayersOk, PotOk, CountersOk, Wealth, Step, Gain;
    if es != [] {
      GoodStep(t, es[0]);
      GoodRun(Step(t, es[0]), es[1..]);
    }
  }

  lemma GoodStart()
    ensures Good(Start) && Wealth(Start) == 0
  {
    hide Number;
    NumberZero(Start, Occupied, 0);
    NumberZero(Start, Flagged, 0);
  }
}

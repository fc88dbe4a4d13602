/** The rules of the Heek table (HeekGameMgr in GameState.cc) as a state machine: up to five seated
    players play rounds of rock, paper and scissors for a pot of points. */
module Heek {
  import opened Wire

  /** Not chosen yet, or rock, paper, scissors. */
  type Choice = x: int | -1 <= x <= 2

  /** Rounds won with each choice. */
  type Wins = w: seq<nat> | |w| == 3 witness [0, 0, 0]
  const NO_WINS: Wins := [0, 0, 0]

  /** A Sitter object; game is the last game the player paid into. */
  datatype Player = Player(ki: nat, score: int, choice: Choice, wins: Wins, game: nat, pending: bool, freed: bool)

  datatype Phase = Idle | InGame | Countdown | StopWait | AnimWait | Winner | WinWait

  /** roster lists every Sitter there ever was; known lists those in m_all, seats those at the
      table, both by their place in the roster. */
  datatype Table = Table(
    phase: Phase, game: nat, pool: nat, roster: seq<Player>, known: seq<nat>, seats: seq<Option<nat>>,
    sittingCt: nat, choiceCt: nat, pendingCt: nat)

  const SEATS := 5
  const Start := Table(Idle, 0, 0, [], [], [None, None, None, None, None], 0, 0, 0)

  predicate Shape(t: Table) {
    && |t.seats| == SEATS
    && (forall i | 0 <= i < SEATS && t.seats[i].Some? :: t.seats[i].value < |t.roster|)
    && (forall k | 0 <= k < |t.known| :: t.known[k] < |t.roster|)
  }

  predicate Sits(t: Table, i: nat)
    requires Shape(t) && i < SEATS
  {
    t.seats[i].Some?
  }

  function At(t: Table, i: nat): Player
    requires Shape(t) && i < SEATS && Sits(t, i)
  {
    t.roster[t.seats[i].value]
  }

  function With(t: Table, i: nat, p: Player): (t': Table)
    requires Shape(t) && i < SEATS && Sits(t, i)
    ensures Shape(t')
  {
    t.(roster := t.roster[t.seats[i].value := p])
  }

  /** get_player_index: the first seat with the player. */
  function SeatOf(t: Table, ki: nat, i: nat): (r: Option<nat>)
    requires Shape(t) && i <= SEATS
    ensures r.Some? ==> r.value < SEATS && Sits(t, r.value) && At(t, r.value).ki == ki
    ensures r.None? ==> forall k | i <= k < SEATS && Sits(t, k) :: At(t, k).ki != ki
    decreases SEATS - i
  {
    if i == SEATS then None
    else if Sits(t, i) && At(t, i).ki == ki then Some(i)
    else SeatOf(t, ki, i + 1)
  }

  // ---------- Counting ----------

  datatype Kind = Occupied | Chose | Picked(c: Choice) | Flagged

  predicate Is(p: Player, k: Kind) {
    match k
    case Occupied => true
    case Chose => p.choice >= 0
    case Picked(c) => p.choice == c
    case Flagged => p.pending
  }

  /** Seats from the i-th on whose player is of a kind. */
  function Number(t: Table, k: Kind, i: nat): (n: nat)
    requires Shape(t) && i <= SEATS
    ensures n <= SEATS - i
    decreases SEATS - i
  {
    if i == SEATS then 0 else (if Sits(t, i) && Is(At(t, i), k) then 1 else 0) + Number(t, k, i + 1)
  }

  function Scores(roster: seq<Player>): int {
    if roster == [] then 0 else roster[0].score + Scores(roster[1..])
  }

  /** All points there are. */
  function Wealth(t: Table): int { Scores(t.roster) + t.pool }

  /** Players who have paid into a game. */
  function Paid(roster: seq<Player>, game: nat): nat {
    if roster == [] then 0 else (if roster[0].game == game then 1 else 0) + Paid(roster[1..], game)
  }

  // ---------- Sitting down ----------

  /** The player's Sitter among those known. */
  function Find(t: Table, ki: nat, k: nat): (r: Option<nat>)
    requires Shape(t) && k <= |t.known|
    ensures r.Some? ==> r.value in t.known && r.value < |t.roster| && t.roster[r.value].ki == ki
    decreases |t.known| - k
  {
    if k == |t.known| then None
    else if t.roster[t.known[k]].ki == ki then Some(t.known[k])
    else Find(t, ki, k + 1)
  }

  /** A player who is in the game cannot change the score, anyone else starts with what they say. */
  function Seated(p: Player, game: nat, score: int): Player {
    var q := if p.game == game && p.score != score then p else p.(score := score);
    (if p.game != game then ResetWins(q) else q).(choice := -1)
  }

  function ResetWins(p: Player): Player { p.(wins := NO_WINS, pending := false) }

  function NewPlayer(ki: nat, score: int): Player { Player(ki, score, -1, NO_WINS, 0, false, false) }

  function Sit(t: Table, ki: nat, position: nat, score: int): (t': Table)
    requires Shape(t) && position < SEATS
    ensures Shape(t')
  {
    if t.sittingCt >= SEATS || Sits(t, position) then t
    else
      var t1 := t.(sittingCt := t.sittingCt + 1);
      match Find(t, ki, 0)
      case None => t1.(roster := t.roster + [NewPlayer(ki, score)], known := t.known + [|t.roster|],
                       seats := t.seats[position := Some(|t.roster|)])
      case Some(id) => t1.(roster := t.roster[id := Seated(t.roster[id], t.game, score)],
                           seats := t.seats[position := Some(id)])
  }

  // ---------- Choosing ----------

  function ResetGame(t: Table): Table { t.(game := t.game + 1, pool := 0) }

  function NoChoices(t: Table, i: nat): (t': Table)
    requires Shape(t) && i <= SEATS
    ensures Shape(t')
    decreases SEATS - i
  {
    if i == SEATS then t
    else NoChoices(if Sits(t, i) then With(t, i, At(t, i).(choice := -1)) else t, i + 1)
  }

  function StartCountdown(t: Table): (t': Table)
    requires Shape(t)
    ensures Shape(t')
  {
    var t1 := if t.phase.Idle? then ResetGame(t.(phase := InGame)) else t;
    if t1.phase.InGame? then NoChoices(t1.(phase := Countdown, choiceCt := 0), 0) else t1
  }

  /** The first choice in a game costs a point. */
  function Ante(t: Table, i: nat): (t': Table)
    requires Shape(t) && i < SEATS && Sits(t, i)
    ensures Shape(t') && t'.seats == t.seats
  {
    var p := At(t, i);
    if p.game == t.game then t
    else With(t, i, ResetWins(p.(game := t.game, score := p.score - 1))).(pool := t.pool + 1)
  }

  function Register(t: Table, i: nat, choice: Choice): (t': Table)
    requires Shape(t) && i < SEATS && Sits(t, i)
    ensures Shape(t')
  {
    var t1 := Ante(t, i);
    var t2 := if At(t1, i).choice < 0 then t1.(choiceCt := t1.choiceCt + 1) else t1;
    var t3 := With(t2, i, At(t2, i).(choice := choice));
    if t3.choiceCt >= t3.sittingCt then t3.(phase := StopWait) else t3
  }

  function Choose(t: Table, ki: nat, choice: nat): (t': Table)
    requires Shape(t)
    ensures Shape(t')
  {
    if t.sittingCt < 2 then t
    else
      var t1 := StartCountdown(t);
      if !t1.phase.Countdown? || choice > 2 then t1
      else
        match SeatOf(t1, ki, 0)
        case None => t1
        case Some(i) => Register(t1, i, choice)
  }

  // ---------- The end of a round ----------

  datatype Tally = Tally(rocks: nat, papers: nat, scissors: nat)

  function Count(t: Table): Tally
    requires Shape(t)
  {
    Tally(Number(t, Picked(0), 0), Number(t, Picked(1), 0), Number(t, Picked(2), 0))
  }

  /** What a choice scores: one for each opponent it beats, minus one for each that beats it. */
  function Total(n: Tally, choice: Choice): int {
    if choice == 0 then n.scissors - n.papers
    else if choice == 1 then n.rocks - n.scissors
    else if choice == 2 then n.papers - n.rocks
    else -5
  }

  /** The best total among those who chose. */
  function Best(t: Table, n: Tally, i: nat, best: int): int
    requires Shape(t) && i <= SEATS
    decreases SEATS - i
  {
    if i == SEATS then best
    else Best(t, n, i + 1, if Sits(t, i) && Is(At(t, i), Chose) then Max(best, Total(n, At(t, i).choice)) else best)
  }

  function Max(a: int, b: int): int { if a >= b then a else b }

  predicate WinsRound(p: Player, n: Tally, best: int) {
    p.choice >= 0 && Total(n, p.choice) > 0 && Total(n, p.choice) == best
  }

  function Credit(p: Player): Player
    requires p.choice >= 0
  {
    p.(wins := p.wins[p.choice := p.wins[p.choice] + 1])
  }

  /** Every round winner is credited; a third win with one choice wins the game, unless others are
      in sudden death already. */
  function CreditAll(t: Table, n: Tally, best: int, i: nat): (r: (Table, nat))
    requires Shape(t) && i <= SEATS
    ensures Shape(r.0)
    decreases SEATS - i
  {
    if i == SEATS then (t, 0)
    else if Sits(t, i) && WinsRound(At(t, i), n, best) then
      var p := Credit(At(t, i));
      if p.wins[p.choice] > 2 then
        var (t', winners) := CreditAll(With(t, i, if t.pendingCt == 0 then p.(pending := true) else p), n, best, i + 1);
        (t', winners + 1)
      else CreditAll(With(t, i, p), n, best, i + 1)
    else CreditAll(t, n, best, i + 1)
  }

  function RoundsWon(p: Player): nat { p.wins[0] + p.wins[1] + p.wins[2] }

  function MostWon(t: Table, i: nat, most: nat): nat
    requires Shape(t) && i <= SEATS
    decreases SEATS - i
  {
    if i == SEATS then most
    else MostWon(t, i + 1, if Sits(t, i) && At(t, i).pending then Max(most, RoundsWon(At(t, i))) else most)
  }

  /** Only those with the most rounds stay in the running. */
  function DropBehind(t: Table, most: nat, i: nat): (r: (Table, nat))
    requires Shape(t) && i <= SEATS
    ensures Shape(r.0)
    decreases SEATS - i
  {
    if i == SEATS then (t, 0)
    else if Sits(t, i) && At(t, i).pending then
      var p := At(t, i);
      if RoundsWon(p) == most then
        var (t', winners) := DropBehind(t, most, i + 1);
        (t', winners + 1)
      else if t.pendingCt == 0 then DropBehind(With(t, i, p.(pending := false)), most, i + 1)
      else if t.pendingCt < 2 then DropBehind(t, most, i + 1) // never reached: HeekRounds.DropBehindMeans
      else DropBehind(With(t, i, p.(pending := false)).(pendingCt := t.pendingCt - 1), most, i + 1)
    else DropBehind(t, most, i + 1)
  }

  /** The first player in the running takes the pot. */
  function PayWinner(t: Table, i: nat): (t': Table)
    requires Shape(t) && i <= SEATS
    ensures Shape(t')
    decreases SEATS - i
  {
    if i == SEATS then t
    else if Sits(t, i) && At(t, i).pending then
      With(t, i, At(t, i).(score := At(t, i).score + t.pool)).(pool := 0)
    else PayWinner(t, i + 1)
  }

  function Candidates(t: Table, winners: nat): (r: (Table, nat))
    requires Shape(t)
    ensures Shape(r.0)
  {
    if winners == 1 && t.pendingCt == 0 then (t, winners)
    else if winners > 0 || t.pendingCt > 0 then DropBehind(t, MostWon(t, 0, 0), 0)
    else (t, winners)
  }

  function Settle(t: Table, winners: nat): (t': Table)
    requires Shape(t)
    ensures Shape(t')
  {
    if t.pendingCt == 0 && winners > 1 then t.(pendingCt := winners, phase := AnimWait)
    else if t.pendingCt > 1 then t.(phase := AnimWait)
    else if winners == 1 then PayWinner(t.(pendingCt := 0), 0).(phase := Winner)
    else t.(phase := AnimWait)
  }

  function Round(t: Table): (t': Table)
    requires Shape(t)
    ensures Shape(t')
  {
    var n := Count(t);
    if n.rocks + n.papers + n.scissors <= 1 then t.(phase := InGame)
    else
      var (t1, winners) := CreditAll(t, n, Best(t, n, 0, -5), 0);
      var (t2, winners) := Candidates(t1, winners);
      Settle(t2, winners)
  }

  function NoFlags(t: Table, i: nat): (t': Table)
    requires Shape(t) && i <= SEATS
    ensures Shape(t')
    decreases SEATS - i
  {
    if i == SEATS then t
    else NoFlags(if Sits(t, i) && At(t, i).pending then With(t, i, At(t, i).(pending := false)) else t, i + 1)
  }

  function ShowWinner(t: Table): (t': Table)
    requires Shape(t)
    ensures Shape(t')
  {
    NoFlags(t, 0).(phase := WinWait)
  }

  // ---------- Getting up ----------

  predicate MidRound(phase: Phase) { !phase.Idle? && !phase.InGame? }

  function Less(n: nat): nat { if n > 0 then n - 1 else 0 }

  /** handle_departure */
  function Depart(t: Table, i: nat): (t': Table)
    requires Shape(t) && i < SEATS && Sits(t, i)
    ensures Shape(t')
  {
    var t1 := if t.sittingCt == 1 then ResetGame(t.(phase := if t.phase.Countdown? then StopWait else Idle)) else t;
    var p := At(t, i);
    With(t1, i, p.(choice := -1, pending := false)).(
      choiceCt := if p.choice >= 0 && MidRound(t1.phase) then Less(t.choiceCt) else t.choiceCt,
      pendingCt := if p.pending then Less(t.pendingCt) else t.pendingCt,
      seats := t.seats[i := None],
      sittingCt := Less(t.sittingCt))
  }

  /** Leaving the table: the last one gets what is in the pot. */
  function Leave(t: Table, ki: nat): (t': Table)
    requires Shape(t)
    ensures Shape(t')
  {
    match SeatOf(t, ki, 0)
    case None => t
    case Some(i) =>
      var p := At(t, i);
      Depart(if t.sittingCt == 1 then With(t, i, p.(score := p.score + t.pool)) else t, i)
  }

  /** Leaving the age: the first Sitter known is forgotten, whoever it is, and freed if it is the
      leaver's. */
  function Forget(t: Table, ki: nat): (t': Table)
    requires Shape(t)
    ensures Shape(t')
  {
    if t.known == [] then t
    else
      var id := t.known[0];
      var t1 := t.(known := t.known[1..]);
      if t.roster[id].ki == ki then t1.(roster := t.roster[id := t.roster[id].(freed := true)]) else t1
  }

  function LeaveAge(t: Table, ki: nat): (t': Table)
    requires Shape(t)
    ensures Shape(t')
  {
    var seat := SeatOf(t, ki, 0);
    Forget(if seat.Some? then Depart(t, seat.value) else t, ki)
  }

  // ---------- Messages and timers ----------

  datatype Animation = CountdownSeq | ChoiceSeq | GameWinSeq

  datatype Event =
    | PlayGame(ki: nat, position: nat, score: int)
    | MakeChoice(ki: nat, choice: nat)
    | Finished(byOwner: bool, seq_: Animation)
    | LeaveGame(ki: nat)
    | PlayerLeft(ki: nat)
    | Timeout

  /** What the code takes for granted about its clients. */
  predicate Proper(t: Table, e: Event)
    requires Shape(t)
  {
    e.PlayGame? ==> e.position < SEATS && SeatOf(t, e.ki, 0).None?
  }

  function AnimationOver(t: Table, anim: Animation): (t': Table)
    requires Shape(t)
    ensures Shape(t')
  {
    match anim
    case CountdownSeq => if t.phase.StopWait? then Round(t) else t
    case ChoiceSeq =>
      if t.phase.AnimWait? then t.(phase := InGame) else if t.phase.Winner? then ShowWinner(t) else t
    case GameWinSeq => if t.phase.WinWait? then t.(phase := Idle) else t
  }

  /** A timer may go off in any state. */
  function TimeUp(t: Table): (t': Table)
    requires Shape(t)
    ensures Shape(t')
  {
    match t.phase
    case Countdown => t.(phase := if t.choiceCt > 1 then StopWait else InGame)
    case StopWait => Round(t)
    case AnimWait => t.(phase := InGame)
    case Winner => ShowWinner(t)
    case WinWait => t.(phase := Idle)
    case _ => t
  }

  function Step(t: Table, e: Event): (t': Table)
    requires Shape(t) && Proper(t, e)
    ensures Shape(t')
  {
    match e
    case PlayGame(ki, position, score) => Sit(t, ki, position, score)
    case MakeChoice(ki, choice) => Choose(t, ki, choice)
    case Finished(byOwner, anim) => if byOwner then AnimationOver(t, anim) else t
    case LeaveGame(ki) => Leave(t, ki)
    case PlayerLeft(ki) => LeaveAge(t, ki)
    case Timeout => TimeUp(t)
  }
}

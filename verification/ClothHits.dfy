/** What starts, hits and timers do to the cloth game, said in its fields. */
module ClothHits {
  import opened Wire
  import opened BlueSpiral

  /** Without the timer that the game knows about. */
  ghost predicate Cancelled(c: Clock, c': Clock) {
    && !c'.started && c'.timer.None? && c'.timerCt == c.timerCt
    && forall id: nat :: if id in c.pending && c.timer != Some(id) then
         id in c'.pending && c'.pending[id] == c.pending[id] else id !in c'.pending
  }

  /** A hit does nothing when no game is on.  The right one counts and touches no timer, and the seventh
      ends the game; a wrong one ends it and cancels its timer. */
  lemma HitMeans(r: Round, cloth: nat)
    requires RoundOk(r)
    ensures
      var r' := Play(r, Hit(cloth));
      if !r.clock.started then r' == r
      else if cloth == r.order[r.next] then
        && r'.order == r.order && r'.next == r.next + 1 && r'.hits == r.hits + [cloth]
        && r'.clock == r.clock.(started := r.next < 6)
      else
        && r'.order == r.order && r'.next == r.next && r'.hits == r.hits
        && Cancelled(r.clock, r'.clock)
  {
    hide Permutation;
  }

  /** A start stops the game that is on.  The order is that of the first seven values, greatest first,
      and a timer for the door is set. */
  lemma StartMeans(r: Round, data: seq<U16>)
    requires RoundOk(r) && |data| >= 7
    ensures
      var r', n := Play(r, Start(data)), r.clock.timerCt;
      && Permutation(r'.order) && |r'.order| == 7 && r'.next == 0 && r'.hits == []
      && (forall i, j | 0 <= i < 7 && 0 <= j < 7 ::
            r'.order[j] < r'.order[i] <==> data[j] > data[i] || (data[j] == data[i] && j > i))
      && r'.clock.started && r'.clock.timer == Some(n) && n in r'.clock.pending
      && r'.clock.pending[n] == TurnDoor && r'.clock.timerCt > n
      && forall id: nat | id != n ::
           if id in r.clock.pending && !(r.clock.started && r.clock.timer == Some(id)) then
             id in r'.clock.pending && r'.clock.pending[id] == r.clock.pending[id]
           else id !in r'.clock.pending
  {
    hide Permutation, Ranks;
    var first := data[..7];
    RanksPermute(first);
    forall i: nat, j: nat | i < 7 && j < 7
      ensures Ranks(first)[j] < Ranks(first)[i] <==> data[j] > data[i] || (data[j] == data[i] && j > i)
    {
      RanksOrder(first, i, j);
    }
  }

  /** The first timer turns the door and sets the second; that ends whatever game is on. */
  lemma FireMeans(r: Round, id: nat)
    requires RoundOk(r)
    ensures
      var r' := Play(r, Fire(id));
      && r'.order == r.order && r'.next == r.next && r'.hits == r.hits
      && if id !in r.clock.pending then r' == r
         else
           && id !in r'.clock.pending
           && match r.clock.pending[id]
              case TurnDoor =>
                var n := r.clock.timerCt;
                && r'.clock.started == r.clock.started && r'.clock.timer == Some(n) && n in r'.clock.pending
                && r'.clock.pending[n] == GameDone && r'.clock.timerCt > n
                && r'.clock.pending - {n} == r.clock.pending - {id}
              case GameDone =>
                && !r'.clock.started && r'.clock.timer.None? && r'.clock.pending == r.clock.pending - {id}
  {
    hide Permutation;
  }

  lemma LeftMeans(r: Round, ageEmpty: bool)
    requires RoundOk(r)
    ensures Play(r, Left(ageEmpty)) == r.(clock := r.clock.(started := r.clock.started && !ageEmpty))
  {
  }

  function HitsOf(order: seq<nat>): (h: seq<Op>)
    ensures |h| == |order| && OpsOk(h)
  {
    seq(|order|, i requires 0 <= i < |order| => Hit(order[i]))
  }

  lemma OneOpMore(ops: seq<Op>, op: Op)
    requires OpsOk(ops) && OpOk(op)
    ensures OpsOk(ops + [op]) && PlayAll(ops + [op]) == Play(PlayAll(ops), op)
  {
    hide Play;
    assert (ops + [op])[..|ops|] == ops;
  }

  /** Whatever has been going on: after a start, hits in the order of the ranks are all accepted, and the
      game is on until the seventh. */
  lemma {:induction false} HitInOrder(ops: seq<Op>, data: seq<U16>, k: nat)
    requires OpsOk(ops) && |data| >= 7 && k <= 7
    ensures
      var begun := ops + [Start(data)] + HitsOf(Ranks(data[..7])[..k]);
      && OpsOk(begun)
      && var r := PlayAll(begun);
      r.order == Ranks(data[..7]) && r.next == k && (r.clock.started <==> k < 7)
  {
    hide PlayAll, Play, Ranks, Permutation, Sound;
    var order := Ranks(data[..7]);
    OneOpMore(ops, Start(data));
    if k == 0 {
      assert ops + [Start(data)] + HitsOf(order[..0]) == ops + [Start(data)];
      StartOrder(PlayAll(ops), data);
    } else {
      HitInOrder(ops, data, k - 1);
      var before := ops + [Start(data)] + HitsOf(order[..k - 1]);
      assert HitsOf(order[..k]) == HitsOf(order[..k - 1]) + [Hit(order[k - 1])];
      assert ops + [Start(data)] + HitsOf(order[..k]) == before + [Hit(order[k - 1])];
      OneOpMore(before, Hit(order[k - 1]));
      HitMeans(PlayAll(before), order[k - 1]);
    }
  }

  lemma StartOrder(r: Round, data: seq<U16>)
    requires RoundOk(r) && |data| >= 7
    ensures
      var r' := Play(r, Start(data));
      r'.order == Ranks(data[..7]) && r'.next == 0 && r'.clock.started
  {
    hide Ranks, Permutation;
  }

  /** A hit out of order at any point ends the game, and later hits do nothing. */
  lemma HitOutOfOrder(ops: seq<Op>, data: seq<U16>, k: nat, cloth: nat, more: nat)
    requires OpsOk(ops) && |data| >= 7 && k < 7 && cloth != Ranks(data[..7])[k]
    ensures
      var lost := ops + [Start(data)] + HitsOf(Ranks(data[..7])[..k]) + [Hit(cloth)];
      && OpsOk(lost) && OpsOk(lost + [Hit(more)])
      && !PlayAll(lost).clock.started && PlayAll(lost).clock.timer.None? && PlayAll(lost).next == k
      && PlayAll(lost + [Hit(more)]) == PlayAll(lost)
  {
    hide PlayAll, Play, Ranks, Permutation, Sound;
    HitInOrder(ops, data, k);
    var before := ops + [Start(data)] + HitsOf(Ranks(data[..7])[..k]);
    OneOpMore(before, Hit(cloth));
    HitMeans(PlayAll(before), cloth);
    OneOpMore(before + [Hit(cloth)], Hit(more));
    HitMeans(PlayAll(before + [Hit(cloth)]), more);
  }
}

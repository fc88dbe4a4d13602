/** What holds of an auth session over every interleaving of client messages with delayed, stale
    or superseded replies from the backend. */
module AuthSafety {
  import opened Wire
  import opened AuthRules

  /** A session with everything it has asked, and what the backend has granted so far: accounts it
      accepted a login for, players it confirmed to belong to an account, and the pairs on whose
      behalf vault and age requests were made. */
  datatype World = World(
    session: Session, asked: seq<Query>, accepted: set<Uuid>, confirmed: set<(Uuid, Ki)>, served: set<(Uuid, Ki)>)

  const NewWorld := World(Fresh, [], {}, {}, {})

  /** The backend only ever answers; a reply is about some request, however old. */
  datatype Event = FromClient(m: FromClient) | FromBackend(b: FromBackend, about: Option<Query>)

  predicate Answers(b: FromBackend, about: Option<Query>) {
    match b
    case LoginResult(reqid, _, _, _, _) => about.Some? && about.value.LoginQuery? && about.value.reqid == reqid
    case KiResult(kinum, _) => about.Some? && about.value.KiQuery? && about.value.kinum == kinum
    case AgeResult(reqid, _) => about.Some? && about.value.AgeQuery? && about.value.reqid == reqid
    case _ => true
  }

  predicate Possible(w: World, e: Event) {
    match e
    case FromClient(m) => Readable(w.session, m)
    case FromBackend(b, about) => Answers(b, about) && (about.Some? ==> about.value in w.asked)
  }

  function React(cfg: Config, w: World, e: Event): Out
    requires Possible(w, e)
  {
    match e
    case FromClient(m) => ClientStep(cfg, w.session, m)
    case FromBackend(b, _) => BackendStep(w.session, b)
  }

  /** Requests made on behalf of the current player. */
  predicate ForPlayer(q: Query) { q.VaultQuery? || q.AgeQuery? }

  function Next(cfg: Config, w: World, e: Event): World
    requires Possible(w, e)
  {
    var out := React(cfg, w, e);
    World(
      out.session,
      w.asked + out.queries,
      w.accepted + (if e.FromBackend? && e.b.LoginResult? && e.b.status.NoError? then {e.b.acct} else {}),
      w.confirmed + (if e.FromBackend? && e.b.KiResult? && e.b.status.NoError?
                     then {(e.about.value.uuid, e.about.value.kinum)} else {}),
      w.served + (if exists i :: 0 <= i < |out.queries| && ForPlayer(out.queries[i])
                  then {(w.session.uuid, w.session.kinum)} else {}))
  }

  function LastAge(asked: seq<Query>): Option<U32> {
    if asked == [] then None
    else if asked[|asked| - 1].AgeQuery? then Some(asked[|asked| - 1].reqid)
    else LastAge(asked[..|asked| - 1])
  }

  predicate LoggedIn(s: Session) { Rank(s.phase) >= Rank(LoginDone) }
  predicate Playing(s: Session) { Rank(s.phase) >= Rank(VaultDownload) }

  ghost predicate Safe(cfg: Config, w: World) {
    var s := w.session;
    // an account is fixed by a login that the backend accepted, and with it a download directory
    && (LoggedIn(s) <==> s.dir.Some?)
    && (if LoggedIn(s) then s.uuid in w.accepted else s.uuid == 0)
    // players are only ever asked about for that account
    && (forall i | 0 <= i < |w.asked| && w.asked[i].KiQuery? ::
          LoggedIn(s) && w.asked[i].uuid == s.uuid && w.asked[i].kinum != 0)
    && (forall i | 0 <= i < |w.asked| && w.asked[i].CreateQuery? :: LoggedIn(s) && w.asked[i].uuid == s.uuid)
    && (forall p | p in w.confirmed :: LoggedIn(s) && p.0 == s.uuid && p.1 != 0)
    // a player is only let in once confirmed
    && (Playing(s) ==> (s.uuid, s.kinum) in w.confirmed && s.kinum != 0)
    && (!cfg.vaultManager ==> w.served <= w.confirmed)
    // an age request in progress is the latest one
    && (s.phase.InGame? ==> s.reqid == 0)
    && (s.phase.AgeReq? && s.reqid != 0 ==> LastAge(w.asked) == Some(s.reqid))
    // nothing is in progress before a login, and no login before registration
    && (s.downloading ==> LoggedIn(s))
    && (forall i | 0 <= i < |w.asked| && w.asked[i].LoginQuery? :: Rank(s.phase) >= Rank(Login))
  }

  lemma SafeAtFirst(cfg: Config)
    ensures Safe(cfg, NewWorld)
  {
  }

  lemma LastAgeAfter(asked: seq<Query>, more: seq<Query>)
    requires |more| <= 1
    ensures LastAge(asked + more)
            == if more != [] && more[0].AgeQuery? then Some(more[0].reqid) else LastAge(asked)
  {
    if more == [] {
      assert asked + more == asked;
    } else {
      assert (asked + more)[..|asked + more| - 1] == asked;
    }
  }

  predicate AboutPlayers(m: FromClient) {
    m.SetPlayer? || m.AgeRequest? || m.VaultReq? || m.PlayerCreate? || m.PlayerDelete?
  }

  lemma SafePlayerStep(cfg: Config, w: World, m: FromClient)
    requires Safe(cfg, w) && Readable(w.session, m) && AboutPlayers(m) && !m.SetPlayer?
    ensures Safe(cfg, Next(cfg, w, FromClient(m)))
  {
    hide Printable, LastAge;
    LastAgeAfter(w.asked, ClientStep(cfg, w.session, m).queries);
  }

  lemma SafeSetPlayer(cfg: Config, w: World, m: FromClient)
    requires Safe(cfg, w) && Readable(w.session, m) && m.SetPlayer?
    ensures Safe(cfg, Next(cfg, w, FromClient(m)))
  {
    hide LastAge;
    LastAgeAfter(w.asked, ClientStep(cfg, w.session, m).queries);
  }

  lemma SafeOtherStep(cfg: Config, w: World, m: FromClient)
    requires Safe(cfg, w) && Readable(w.session, m) && !AboutPlayers(m)
    ensures Safe(cfg, Next(cfg, w, FromClient(m)))
  {
    hide NameSafe, Slashed, LastAge;
    LastAgeAfter(w.asked, ClientStep(cfg, w.session, m).queries);
  }

  lemma SafeClientStep(cfg: Config, w: World, m: FromClient)
    requires Safe(cfg, w) && Readable(w.session, m)
    ensures Safe(cfg, Next(cfg, w, FromClient(m)))
  {
    hide Safe, Next;
    if m.SetPlayer? {
      SafeSetPlayer(cfg, w, m);
    } else if AboutPlayers(m) {
      SafePlayerStep(cfg, w, m);
    } else {
      SafeOtherStep(cfg, w, m);
    }
  }

  lemma SafeBackendStep(cfg: Config, w: World, b: FromBackend, about: Option<Query>)
    requires Safe(cfg, w) && Possible(w, FromBackend(b, about))
    ensures Safe(cfg, Next(cfg, w, FromBackend(b, about)))
  {
    hide LastAge;
    assert w.asked + [] == w.asked;
  }

  /** The account is settled by the first accepted login. */
  lemma AccountFixed(cfg: Config, w: World, e: Event)
    requires Safe(cfg, w) && Possible(w, e) && LoggedIn(w.session)
    ensures var s := Next(cfg, w, e).session;
            LoggedIn(s) && s.uuid == w.session.uuid && s.dir == w.session.dir
  {
    hide NameSafe, Slashed, Printable, LastAge;
  }

  /** The client hears about an age only in answer to its latest request (or to one numbered zero). */
  lemma AgeRepliesAreCurrent(cfg: Config, w: World, e: Event, i: nat)
    requires Safe(cfg, w) && Possible(w, e)
    requires i < |React(cfg, w, e).replies| && React(cfg, w, e).replies[i].AgeReply?
    ensures var reqid := React(cfg, w, e).replies[i].reqid;
            && e.FromBackend? && e.b == AgeResult(reqid, React(cfg, w, e).replies[i].status)
            && (reqid == 0 || LastAge(w.asked) == Some(reqid))
  {
    hide NameSafe, Slashed, Printable, LastAge;
  }

  /** A request to delete a player takes the place of a pending login, whose success is then
      dropped: the login only survives if it was numbered zero. */
  lemma DeleteDropsLogin(cfg: Config, s: Session, reqid: U32, ki: Ki, b: FromBackend)
    requires s.phase.Login? && b.LoginResult? && b.lreqid == s.reqid
    ensures
      var s1 := ClientStep(cfg, s, PlayerDelete(reqid, ki)).session;
      LoggedIn(BackendStep(s1, b).session) <==> s.reqid == 0 && b.status.NoError?
  {
  }

  /** A request to delete a player at the wrong time also displaces a pending age request: its answer
      is dropped unless that was numbered zero. */
  lemma DeleteStrandsAge(cfg: Config, s: Session, reqid: U32, ki: Ki, status: Status)
    requires s.phase.AgeReq?
    ensures
      var s1 := ClientStep(cfg, s, PlayerDelete(reqid, ki)).session;
      && s1.phase.AgeReq? && s1.reqid == 0
      && (BackendStep(s1, AgeResult(s.reqid, status)).replies == [AgeReply(s.reqid, status)] <==> s.reqid == 0)
      && (BackendStep(s1, AgeResult(s.reqid, status)).session.phase.InGame? <==> s.reqid == 0 && status.NoError?)
  {
  }

  /** A new age request, or an answer to one numbered zero. */
  predicate AboutAge(e: Event) {
    (e.FromClient? && e.m.AgeRequest?) || (e.FromBackend? && e.b.AgeResult? && e.b.areqid == 0)
  }

  /** From there the player waits for good, whatever else happens, until the age is asked for again. */
  lemma {:induction false} StrandedRun(cfg: Config, w: World, es: seq<Event>)
    requires w.session.phase.AgeReq? && w.session.reqid == 0 && PossibleRun(cfg, w, es)
    requires forall i | 0 <= i < |es| :: !AboutAge(es[i])
    ensures Run(cfg, w, es).session.phase.AgeReq? && Run(cfg, w, es).session.reqid == 0
    decreases |es|
  {
    hide Next;
    if es != [] {
      assert !AboutAge(es[0]);
      StrandedStep(cfg, w, es[0]);
      StrandedRun(cfg, Next(cfg, w, es[0]), es[1..]);
    }
  }

  lemma StrandedStep(cfg: Config, w: World, e: Event)
    requires w.session.phase.AgeReq? && w.session.reqid == 0 && Possible(w, e) && !AboutAge(e)
    ensures Next(cfg, w, e).session.phase.AgeReq? && Next(cfg, w, e).session.reqid == 0
  {
    hide NameSafe, Slashed, Printable;
  }

  /** When a player cannot be checked for now, no player can be created either, until player zero
      is chosen: the number of the finished request stays on record. */
  lemma FailedCheckBlocksCreation(cfg: Config, s: Session, status: Status, reqid: U32, name: Bytes)
    requires s.phase.InStartup? && !status.NoError? && !status.PlayerNotFound?
    ensures
      var s1 := BackendStep(s, KiResult(s.kinum, status)).session;
      (exists q :: ClientStep(cfg, s1, PlayerCreate(reqid, name)).queries == [q]) <==> s.reqid == 0 && Printable(name)
  {
    hide Printable;
    assert s.reqid == 0 && Printable(name) ==>
      OnCreate(s, reqid, name).queries == [CreateQuery(reqid, s.uuid, name)];
  }

  ghost predicate PossibleRun(cfg: Config, w: World, es: seq<Event>)
    decreases |es|
  {
    es == [] || (Possible(w, es[0]) && PossibleRun(cfg, Next(cfg, w, es[0]), es[1..]))
  }

  ghost function Run(cfg: Config, w: World, es: seq<Event>): World
    requires PossibleRun(cfg, w, es)
    decreases |es|
  {
    if es == [] then w else Run(cfg, Next(cfg, w, es[0]), es[1..])
  }

  lemma {:induction false} SafeRun(cfg: Config, w: World, es: seq<Event>)
    requires Safe(cfg, w) && PossibleRun(cfg, w, es)
    ensures Safe(cfg, Run(cfg, w, es))
    ensures LoggedIn(w.session) ==>
              LoggedIn(Run(cfg, w, es).session) && Run(cfg, w, es).session.uuid == w.session.uuid
    decreases |es|
  {
    hide Safe, Next;
    if es != [] {
      SafeStep(cfg, w, es[0]);
      if LoggedIn(w.session) {
        AccountFixed(cfg, w, es[0]);
      }
      SafeRun(cfg, Next(cfg, w, es[0]), es[1..]);
    }
  }

  lemma SafeStep(cfg: Config, w: World, e: Event)
    requires Safe(cfg, w) && Possible(w, e)
    ensures Safe(cfg, Next(cfg, w, e))
  {
    hide Safe, Next;
    match e
    case FromClient(m) => SafeClientStep(cfg, w, m);
    case FromBackend(b, about) => SafeBackendStep(cfg, w, b, about);
  }

  /** Without a request for the current player there is no letting in: in any run from the start,
      whoever plays is a player the backend confirmed for the account whose login it accepted. */
  lemma OnlyConfirmedPlayersPlay(cfg: Config, es: seq<Event>)
    requires PossibleRun(cfg, NewWorld, es)
    ensures
      var w := Run(cfg, NewWorld, es);
      && (LoggedIn(w.session) ==> w.session.uuid in w.accepted)
      && (Playing(w.session) ==> (w.session.uuid, w.session.kinum) in w.confirmed && w.session.kinum != 0)
      && (!cfg.vaultManager ==> w.served <= w.confirmed)
  {
    SafeAtFirst(cfg);
    SafeRun(cfg, NewWorld, es);
  }

  /** A password query names an account the backend accepted exactly if someone is logged in; before
      that it is made all the same, for account zero. */
  lemma PasswordForWhom(cfg: Config, es: seq<Event>, m: FromClient)
    requires PossibleRun(cfg, NewWorld, es) && m.PasswordChange? && Readable(Run(cfg, NewWorld, es).session, m)
    ensures
      var w := Run(cfg, NewWorld, es);
      var queries := ClientStep(cfg, w.session, m).queries;
      && (queries == [] <==> m.nameEmpty || !m.nameIsEmail)
      && (queries != [] ==> queries == [PasswordQuery(w.session.uuid, m.preqid)])
      && (if LoggedIn(w.session) then w.session.uuid in w.accepted else w.session.uuid == 0)
  {
    SafeAtFirst(cfg);
    SafeRun(cfg, NewWorld, es);
  }

  /** Right after the key exchange, without so much as an attempt to log in. */
  lemma PasswordBeforeLogin(cfg: Config, reqid: U32)
    ensures
      var hello := FromClient(Handshake(true, true, true));
      && PossibleRun(cfg, NewWorld, [hello, hello])
      && var s := Run(cfg, NewWorld, [hello, hello]).session;
         ClientStep(cfg, s, PasswordChange(reqid, false, true)).queries == [PasswordQuery(0, reqid)]
  {
    var hello := FromClient(Handshake(true, true, true));
    var w1 := Next(cfg, NewWorld, hello);
    var w2 := Next(cfg, w1, hello);
    var none: seq<Event> := [];
    assert [hello, hello][1..] == [hello] && [hello][1..] == none;
    assert Run(cfg, w2, none) == w2 && PossibleRun(cfg, w2, none);
    assert Run(cfg, w1, [hello]) == w2 && PossibleRun(cfg, w1, [hello]);
  }
}

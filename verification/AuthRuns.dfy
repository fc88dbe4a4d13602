/** When an auth session gets on: who is let in and who is sent away, what is asked and what is answered,
    by the state the session is in. */
module AuthRuns {
  import opened Wire
  import opened AuthRules
  import opened AuthSafety

  // ---------- The way through the states ----------

  /** A player can be chosen before anybody plays, once files were asked for if that is demanded; later
      only player zero, who is nobody. */
  predicate MayChoose(cfg: Config, s: Session, e: Event) {
    && e.FromClient? && e.m.SetPlayer?
    && match s.phase
       case LoginDone => !cfg.downloadRequired
       case Download => true
       case InStartup => true
       case InGame => e.m.newKi == 0
       case _ => false
  }

  predicate LetsIn(s: Session, e: Event) {
    s.phase.InStartup? && e.FromBackend? && e.b == KiResult(s.kinum, NoError)
  }

  predicate InPlay(p: Phase) { p.VaultDownload? || p.AgeReq? || p.InGame? }

  /** The next state, for every state. */
  function PhaseNext(cfg: Config, s: Session, e: Event): Phase {
    if MayChoose(cfg, s, e) then InStartup
    else if InPlay(s.phase) && e.FromClient? && e.m.AgeRequest? then AgeReq
    else
      match s.phase
      case Start => if e.FromClient? && e.m.Handshake? && e.m.recognised then NegotiationDone else Start
      case NegotiationDone => if e == FromClient(Handshake(true, true, true)) then NonceDone else NegotiationDone
      case NonceDone => if e == FromClient(RegisterReq) then Register else NonceDone
      case Register => if e.FromClient? && e.m.LoginReq? && e.m.login != [] then Login else Register
      case Login =>
        if e.FromBackend? && e.b.LoginResult? && e.b.lreqid == s.reqid && e.b.status.NoError? then LoginDone else Login
      case LoginDone =>
        if e.FromClient? && e.m.FileReq? && s.dir.Some? && !s.downloading then Download else LoginDone
      case Download => Download
      case InStartup => if LetsIn(s, e) then VaultDownload else InStartup
      case VaultDownload => VaultDownload
      case AgeReq => if e.FromBackend? && e.b == AgeResult(s.reqid, NoError) then InGame else AgeReq
      case InGame => InGame
  }

  lemma PhaseAfter(cfg: Config, w: World, e: Event)
    requires Possible(w, e) && Safe(cfg, w)
    ensures Next(cfg, w, e).session.phase == PhaseNext(cfg, w.session, e)
  {
    hide PhaseNext, React;
    match e
    case FromClient(m) => PhaseAfterClient(cfg, w, m);
    case FromBackend(b, about) => PhaseAfterBackend(cfg, w, b, about);
  }

  lemma PhaseAfterClient(cfg: Config, w: World, m: FromClient)
    requires Readable(w.session, m) && (LoggedIn(w.session) <==> w.session.dir.Some?)
    ensures React(cfg, w, FromClient(m)).session.phase == PhaseNext(cfg, w.session, FromClient(m))
  {
    hide NameSafe, Slashed, Printable;
    if m.SetPlayer? {
      hide ClientStep, PhaseNext;
      PhaseAfterChoice(cfg, w.session, m);
    }
  }

  lemma PhaseAfterChoice(cfg: Config, s: Session, m: FromClient)
    requires Readable(s, m) && m.SetPlayer?
    ensures ClientStep(cfg, s, m).session.phase == PhaseNext(cfg, s, FromClient(m))
  {
  }

  lemma PhaseAfterBackend(cfg: Config, w: World, b: FromBackend, about: Option<Query>)
    requires Possible(w, FromBackend(b, about))
    ensures React(cfg, w, FromBackend(b, about)).session.phase == PhaseNext(cfg, w.session, FromBackend(b, about))
  {
  }

  /** Account and directory come with the login, the player is the one chosen last. */
  predicate IdentityNext(cfg: Config, s: Session, e: Event, s': Session) {
    && (if s.phase.Login? && s'.phase.LoginDone? then
          e.FromBackend? && e.b.LoginResult? && s'.uuid == e.b.acct && s'.dir == Some(e.b.dir)
        else s'.uuid == s.uuid && s'.dir == s.dir)
    && s'.kinum == if MayChoose(cfg, s, e) then e.m.newKi else s.kinum
  }

  lemma IdentityAfter(cfg: Config, w: World, e: Event)
    requires Possible(w, e)
    ensures IdentityNext(cfg, w.session, e, Next(cfg, w, e).session)
  {
    hide IdentityNext;
    match e
    case FromClient(m) => IdentityAfterClient(cfg, w.session, m);
    case FromBackend(b, about) => IdentityAfterBackend(cfg, w.session, b, about);
  }

  lemma IdentityAfterClient(cfg: Config, s: Session, m: FromClient)
    requires Readable(s, m)
    ensures IdentityNext(cfg, s, FromClient(m), ClientStep(cfg, s, m).session)
  {
    hide NameSafe, Slashed, Printable;
  }

  lemma IdentityAfterBackend(cfg: Config, s: Session, b: FromBackend, about: Option<Query>)
    ensures IdentityNext(cfg, s, FromBackend(b, about), BackendStep(s, b).session)
  {
  }

  /** The number of the request on record, zero for none. */
  function ReqidNext(cfg: Config, s: Session, e: Event): U32 {
    if e.FromClient? then
      match e.m
      case LoginReq(reqid, login) => if login != [] && (s.phase.Register? || s.phase.Login?) then reqid else s.reqid
      case PlayerCreate(reqid, name) =>
        if s.phase.InStartup? && s.reqid == 0 && Printable(name) then reqid else s.reqid
      case AgeRequest(reqid) => if InPlay(s.phase) then reqid else s.reqid
      case SetPlayer(reqid, newKi) =>
        if !MayChoose(cfg, s, e) then s.reqid else if newKi == 0 then 0 else reqid
      case PlayerDelete(reqid, _) => if s.phase.InStartup? then reqid else 0
      case _ => s.reqid
    else
      match e.b
      case LoginResult(reqid, _, _, _, _) => if s.phase.Login? && s.reqid == reqid then 0 else s.reqid
      case CreateResult(reqid, _) => if s.phase.InStartup? && s.reqid == reqid then 0 else s.reqid
      case DeleteResult(reqid, _) => if s.phase.InStartup? && s.reqid == reqid then 0 else s.reqid
      case AgeResult(reqid, _) => if s.phase.AgeReq? && s.reqid == reqid then 0 else s.reqid
      case _ => s.reqid
  }

  /** A download occupies the session if it is acknowledged chunk by chunk, or was refused for its name,
      until its last chunk or until a player is chosen. */
  predicate BusyNext(cfg: Config, s: Session, e: Event) {
    if e.FromClient? && e.m.FileReq? && (s.phase.LoginDone? || s.phase.Download?) && !s.downloading then
      !NameSafe(e.m.name, e.m.manifest) || (!e.m.manifest && !cfg.noAcks)
    else if e == FromClient(ChunkAck(true)) && !InPlay(s.phase) && !s.phase.InStartup? then
      s.downloading && cfg.noAcks
    else if MayChoose(cfg, s, e) && s.phase.Download? then false
    else s.downloading
  }

  lemma RequestAfter(cfg: Config, w: World, e: Event)
    requires Possible(w, e) && Safe(cfg, w)
    ensures Next(cfg, w, e).session.reqid == ReqidNext(cfg, w.session, e)
    ensures Next(cfg, w, e).session.downloading == BusyNext(cfg, w.session, e)
  {
    hide ReqidNext, BusyNext, ClientStep, BackendStep, LastAge;
    match e
    case FromClient(m) => RequestAfterClient(cfg, w.session, m);
    case FromBackend(b, about) => RequestAfterBackend(cfg, w.session, b, about);
  }

  lemma RequestAfterClient(cfg: Config, s: Session, m: FromClient)
    requires Readable(s, m) && (LoggedIn(s) <==> s.dir.Some?) && (s.downloading ==> LoggedIn(s))
    ensures ClientStep(cfg, s, m).session.reqid == ReqidNext(cfg, s, FromClient(m))
    ensures ClientStep(cfg, s, m).session.downloading == BusyNext(cfg, s, FromClient(m))
  {
    hide NameSafe, Slashed, Printable;
  }

  lemma RequestAfterBackend(cfg: Config, s: Session, b: FromBackend, about: Option<Query>)
    ensures BackendStep(s, b).session.reqid == ReqidNext(cfg, s, FromBackend(b, about))
    ensures BackendStep(s, b).session.downloading == BusyNext(cfg, s, FromBackend(b, about))
  {
  }

  /** The player leaves the game without leaving the server. */
  predicate Drops(s: Session, e: Event) { s.phase.InGame? && e.FromClient? && e.m.SetPlayer? && e.m.newKi == 0 }

  /** Whether somebody plays: what happened last, letting in or dropping. */
  ghost function InAfter(cfg: Config, w: World, now: bool, es: seq<Event>): bool
    requires PossibleRun(cfg, w, es)
    decreases |es|
  {
    if es == [] then now
    else
      InAfter(cfg, Next(cfg, w, es[0]),
              if LetsIn(w.session, es[0]) then true else now && !Drops(w.session, es[0]), es[1..])
  }

  /** In any run somebody plays exactly if the backend has confirmed the player chosen at the time and
      the player has not been dropped since. */
  lemma {:induction false} PlayingExactly(cfg: Config, w: World, es: seq<Event>)
    requires PossibleRun(cfg, w, es) && Safe(cfg, w)
    ensures InPlay(Run(cfg, w, es).session.phase) <==> InAfter(cfg, w, InPlay(w.session.phase), es)
    decreases |es|
  {
    hide Next, Safe;
    if es != [] {
      PhaseAfter(cfg, w, es[0]);
      SafeStep(cfg, w, es[0]);
      PlayingExactly(cfg, Next(cfg, w, es[0]), es[1..]);
    }
  }

  /** In any run a confirmed player is let in, told so, and can then ask for an age. */
  lemma ConfirmedIsLetIn(cfg: Config, es: seq<Event>, about: Option<Query>, reqid: U32)
    requires PossibleRun(cfg, NewWorld, es)
    requires
      var w := Run(cfg, NewWorld, es);
      w.session.phase.InStartup? && Possible(w, FromBackend(KiResult(w.session.kinum, NoError), about))
    ensures
      var w := Run(cfg, NewWorld, es);
      var e := FromBackend(KiResult(w.session.kinum, NoError), about);
      var w1 := Next(cfg, w, e);
      var out := ClientStep(cfg, w1.session, AgeRequest(reqid));
      && w.session.kinum != 0 && w1.session == w.session.(phase := VaultDownload)
      && React(cfg, w, e).replies == [SetPlayerReply(w.session.reqid, NoError)]
      && out == Out(w1.session.(phase := AgeReq, reqid := reqid), [AgeQuery(reqid)], [], NoShutdown)
  {
    SafeAtFirst(cfg);
    SafeRun(cfg, NewWorld, es);
  }

  // ---------- File names ----------

  /** A name is refused for two dots in a row; that of a manifest also for a slash of either kind, and for
      a dot at its end, which would come before the one of .mbam. */
  lemma SafeExactly(name: Bytes, manifest: bool)
    ensures NameSafe(name, manifest) <==>
            && (forall i | 0 <= i < |name| - 1 :: !(name[i] == 46 && name[i + 1] == 46))
            && (manifest ==> (name != [] ==> name[|name| - 1] != 46))
            && (manifest ==> forall i | 0 <= i < |name| :: name[i] != 47 && name[i] != 92)
    ensures |Slashed(name)| == |name|
    ensures forall i | 0 <= i < |name| :: Slashed(name)[i] == if name[i] == 92 then 47 else name[i]
  {
    var full := name + Suffix(manifest);
    assert forall i | 0 <= i < |name| :: full[i] == name[i];
    assert manifest ==> full[|name|] == 46;
    if NameSafe(name, manifest) {
      forall i | 0 <= i < |name| ensures !DotsAt(full, i) {
      }
      if manifest && name != [] {
        assert !DotsAt(full, |name| - 1);
      }
      forall i | 0 <= i < |name| - 1 ensures !(name[i] == 46 && name[i + 1] == 46) {
        assert !DotsAt(full, i);
      }
    } else {
      var i :| 0 <= i < |name| && (DotsAt(full, i) || (manifest && Separator(name[i])));
      assert i + 1 < |name| ==> full[i + 1] == name[i + 1];
    }
  }

  // ---------- Requests and answers ----------

  /** Who is sent away by the server itself. */
  predicate SentAway(cfg: Config, s: Session, m: FromClient) {
    match m
    case ChunkAck(_) => s.phase.InStartup? || InPlay(s.phase)
    case FileReq(manifest, name) =>
      s.phase.InStartup? || InPlay(s.phase) || s.dir.None? || s.downloading || !NameSafe(name, manifest)
    case PlayerCreate(_, _) => !s.phase.InStartup?
    case AgeRequest(_) => !InPlay(s.phase)
    case SetPlayer(_, _) => cfg.downloadRequired && !(s.phase.Download? || s.phase.InStartup? || InPlay(s.phase))
    case _ => false
  }

  lemma SentAwayExactly(cfg: Config, s: Session, m: FromClient)
    requires Readable(s, m)
    ensures
      var out := ClientStep(cfg, s, m);
      && (out.reason.UnexpectedState? <==> SentAway(cfg, s, m))
      && ((exists i :: 0 <= i < |out.replies| && out.replies[i].Kick?) <==> SentAway(cfg, s, m))
      && (SentAway(cfg, s, m) ==> |out.replies| == 1 && out.queries == [])
  {
    hide NameSafe, Slashed, Printable;
    var out := ClientStep(cfg, s, m);
    assert out.replies != [] && out.replies[0].Kick? ==> SentAway(cfg, s, m);
  }

  /** What the backend is asked, query by query. */
  predicate Asks(cfg: Config, s: Session, m: FromClient, q: Query) {
    match q
    case LoginQuery(reqid, login) => m == LoginReq(reqid, login) && login != [] && (s.phase.Register? || s.phase.Login?)
    case PasswordQuery(uuid, reqid) => m == PasswordChange(reqid, false, true) && uuid == s.uuid
    case CreateQuery(reqid, uuid, name) =>
      m == PlayerCreate(reqid, name) && uuid == s.uuid && s.phase.InStartup? && s.reqid == 0 && Printable(name)
    case DeleteQuery(reqid, kinum) => m == PlayerDelete(reqid, kinum) && s.phase.InStartup?
    case KiQuery(uuid, kinum) =>
      MayChoose(cfg, s, FromClient(m)) && kinum == m.newKi && kinum != 0 && uuid == s.uuid
    case LogoutNotice(kinum) => MayChoose(cfg, s, FromClient(m)) && m.newKi == 0 && kinum == s.kinum && kinum != 0
    case VaultQuery => m == VaultReq(true) && (InPlay(s.phase) || cfg.vaultManager)
    case AgeQuery(reqid) => m == AgeRequest(reqid) && InPlay(s.phase)
  }

  lemma AskedExactly(cfg: Config, s: Session, m: FromClient, q: Query)
    requires Readable(s, m)
    ensures q in ClientStep(cfg, s, m).queries <==> Asks(cfg, s, m, q)
    ensures |ClientStep(cfg, s, m).queries| <= 1
  {
    hide NameSafe, Slashed, Printable;
  }

  /** What the client is told of what the backend answers. */
  predicate Passes(s: Session, b: FromBackend, r: Reply) {
    match r
    case LoginReply(reqid, status) =>
      b.LoginResult? && b.lreqid == reqid == s.reqid && b.status == status && s.phase.Login?
    case PlayerInfo =>
      b.LoginResult? && b.lreqid == s.reqid && b.status.NoError? && b.players && s.phase.Login?
    case PasswordReply(reqid, status) => b == PasswordResult(reqid, status)
    case CreateReply(reqid, status) => b == CreateResult(reqid, status)
    case DeleteReply(reqid, status) => b == DeleteResult(reqid, status)
    case SetPlayerReply(reqid, status) =>
      b == KiResult(s.kinum, status) && reqid == s.reqid && s.phase.InStartup? && !status.PlayerNotFound?
    case VaultReply => b.VaultResult?
    case AgeReply(reqid, status) => b == AgeResult(reqid, status) && reqid == s.reqid && s.phase.AgeReq?
    case Kick(why) =>
      || (b.KillClient? && why == if b.newLogin then LoggedInElsewhere else OtherStatus(1))
      || (b == KiResult(s.kinum, PlayerNotFound) && why.PlayerNotFound? && s.phase.InStartup?)
    case _ => false
  }

  lemma PassedExactly(s: Session, b: FromBackend, r: Reply)
    ensures r in BackendStep(s, b).replies <==> Passes(s, b, r)
    ensures BackendStep(s, b).queries == []
    ensures b.LoginResult? && BackendStep(s, b).replies != [] ==>
              BackendStep(s, b).replies[|BackendStep(s, b).replies| - 1].LoginReply?
  {
  }

  // ---------- A whole session ----------

  /** What the client has been told in a run. */
  ghost function TalkOf(cfg: Config, w: World, es: seq<Event>): seq<Reply>
    requires PossibleRun(cfg, w, es)
    decreases |es|
  {
    if es == [] then [] else React(cfg, w, es[0]).replies + TalkOf(cfg, Next(cfg, w, es[0]), es[1..])
  }

  ghost predicate Goes(cfg: Config, w: World, e: Event, w': World, told: seq<Reply>) {
    Possible(w, e) && Next(cfg, w, e) == w' && React(cfg, w, e).replies == told
  }

  ghost predicate Talks(cfg: Config, w: World, es: seq<Event>, w': World, talk: seq<Reply>) {
    PossibleRun(cfg, w, es) && Run(cfg, w, es) == w' && TalkOf(cfg, w, es) == talk
  }

  lemma OneStep(cfg: Config, w: World, e: Event, mid: World, told: seq<Reply>, es: seq<Event>, w': World,
                talk: seq<Reply>)
    requires Goes(cfg, w, e, mid, told) && Talks(cfg, mid, es, w', talk)
    ensures Talks(cfg, w, [e] + es, w', told + talk)
  {
    hide Next, React, Possible;
    assert ([e] + es)[1..] == es;
  }

  lemma NothingMore(cfg: Config, w: World)
    ensures Talks(cfg, w, [], w, [])
  {
  }

  lemma {:induction false} TalksOn(cfg: Config, w: World, a: seq<Event>, mid: World, talk: seq<Reply>, b: seq<Event>,
                                   w': World, more: seq<Reply>)
    requires Talks(cfg, w, a, mid, talk) && Talks(cfg, mid, b, w', more)
    ensures Talks(cfg, w, a + b, w', talk + more)
    decreases |a|
  {
    hide Next, React, Possible;
    if a == [] {
      assert a + b == b && talk + more == more;
    } else {
      var next := Next(cfg, w, a[0]);
      var told, rest := React(cfg, w, a[0]).replies, TalkOf(cfg, next, a[1..]);
      TalksOn(cfg, next, a[1..], mid, rest, b, w', more);
      assert [a[0]] + (a[1..] + b) == a + b;
      assert told + (rest + more) == talk + more;
      OneStep(cfg, w, a[0], next, told, a[1..] + b, w', rest + more);
    }
  }

  lemma Pair(cfg: Config, w: World, e: Event, mid: World, told: seq<Reply>, e': Event, w': World, more: seq<Reply>,
             talk: seq<Reply>)
    requires Goes(cfg, w, e, mid, told) && Goes(cfg, mid, e', w', more) && talk == told + more
    ensures Talks(cfg, w, [e, e'], w', talk)
  {
    hide Goes, Talks;
    var none: seq<Event>, quiet: seq<Reply> := [], [];
    NothingMore(cfg, w');
    OneStep(cfg, mid, e', w', more, none, w', quiet);
    OneStep(cfg, w, e, mid, told, [e'] + none, w', more + quiet);
    assert [e] + ([e'] + none) == [e, e'] && told + (more + quiet) == told + more;
  }

  const Hello := FromClient(Handshake(true, true, true))
  const Login7 := FromClient(LoginReq(7, [65]))
  const LoggedIn7 := FromBackend(LoginResult(7, NoError, 99, [66], true), Some(LoginQuery(7, [65])))
  const File := FromClient(FileReq(true, [67]))
  const Player5 := FromClient(SetPlayer(8, 5))
  const Confirmed5 := FromBackend(KiResult(5, NoError), Some(KiQuery(99, 5)))
  const Age10 := FromClient(AgeRequest(10))
  const AgeFound := FromBackend(AgeResult(10, NoError), Some(AgeQuery(10)))

  const Met := World(Fresh.(phase := NonceDone), [], {}, {}, {})
  const Asking := World(Fresh.(phase := AuthRules.Login, reqid := 7), [LoginQuery(7, [65])], {}, {}, {})
  const Loading := World(Session(Download, 0, 0, 99, Some([66]), false), [LoginQuery(7, [65])], {99}, {}, {})
  const Inside := World(
    Session(VaultDownload, 8, 5, 99, Some([66]), false), [LoginQuery(7, [65]), KiQuery(99, 5)], {99}, {(99, 5)}, {})
  const There := World(
    Session(InGame, 0, 5, 99, Some([66]), false), [LoginQuery(7, [65]), KiQuery(99, 5), AgeQuery(10)],
    {99}, {(99, 5)}, {(99, 5)})

  lemma Meets(cfg: Config)
    ensures Talks(cfg, NewWorld, [Hello, Hello], Met, [])
  {
    hide Talks;
    var w1 := NewWorld.(session := Fresh.(phase := NegotiationDone));
    assert Goes(cfg, NewWorld, Hello, w1, []);
    assert Goes(cfg, w1, Hello, Met, []);
    Pair(cfg, NewWorld, Hello, w1, [], Hello, Met, [], []);
  }

  lemma AsksIn(cfg: Config)
    ensures Talks(cfg, Met, [FromClient(RegisterReq), Login7], Asking, [Registered, ServerAddress])
  {
    hide Talks;
    var w1 := Met.(session := Fresh.(phase := AuthRules.Register));
    assert Goes(cfg, Met, FromClient(RegisterReq), w1, [Registered, ServerAddress]);
    assert Goes(cfg, w1, Login7, Asking, []);
    Pair(cfg, Met, FromClient(RegisterReq), w1, [Registered, ServerAddress], Login7, Asking, [],
         [Registered, ServerAddress]);
  }

  lemma NameIsSafe()
    ensures NameSafe([67], true) && Slashed([67]) == [67]
  {
    assert ([67] + Suffix(true))[0] == 67;
  }

  lemma LogsIn(cfg: Config)
    ensures Talks(cfg, Asking, [LoggedIn7, File], Loading, [PlayerInfo, LoginReply(7, NoError), FirstChunk(true, [67])])
  {
    hide Talks, NameSafe, Slashed;
    NameIsSafe();
    var w1 := Loading.(session := Loading.session.(phase := LoginDone));
    assert Goes(cfg, Asking, LoggedIn7, w1, [PlayerInfo, LoginReply(7, NoError)]);
    assert Goes(cfg, w1, File, Loading, [FirstChunk(true, [67])]);
    Pair(cfg, Asking, LoggedIn7, w1, [PlayerInfo, LoginReply(7, NoError)], File, Loading, [FirstChunk(true, [67])],
         [PlayerInfo, LoginReply(7, NoError), FirstChunk(true, [67])]);
  }

  lemma Enters(cfg: Config)
    ensures Talks(cfg, Loading, [Player5, Confirmed5], Inside, [SetPlayerReply(8, NoError)])
  {
    hide Talks;
    var w1 := Inside.(session := Inside.session.(phase := InStartup), confirmed := {});
    assert Goes(cfg, Loading, Player5, w1, []);
    assert Goes(cfg, w1, Confirmed5, Inside, [SetPlayerReply(8, NoError)]);
    Pair(cfg, Loading, Player5, w1, [], Confirmed5, Inside, [SetPlayerReply(8, NoError)], [SetPlayerReply(8, NoError)]);
  }

  lemma GoesToAge(cfg: Config)
    ensures Talks(cfg, Inside, [Age10, AgeFound], There, [AgeReply(10, NoError)])
  {
    hide Talks;
    var w1 := There.(session := There.session.(phase := AgeReq, reqid := 10));
    assert ForPlayer(React(cfg, Inside, Age10).queries[0]);
    assert Goes(cfg, Inside, Age10, w1, []);
    assert Goes(cfg, w1, AgeFound, There, [AgeReply(10, NoError)]);
    Pair(cfg, Inside, Age10, w1, [], AgeFound, There, [AgeReply(10, NoError)], [AgeReply(10, NoError)]);
  }

  /** From the first handshake into an age: what is asked, and what the client is told. */
  lemma AWholeSession(cfg: Config)
    ensures
      var es := [Hello, Hello] + ([FromClient(RegisterReq), Login7] + ([LoggedIn7, File]
                + ([Player5, Confirmed5] + [Age10, AgeFound])));
      && PossibleRun(cfg, NewWorld, es)
      && var w := Run(cfg, NewWorld, es);
      && w.session == Session(InGame, 0, 5, 99, Some([66]), false)
      && w.asked == [LoginQuery(7, [65]), KiQuery(99, 5), AgeQuery(10)]
      && TalkOf(cfg, NewWorld, es)
         == [Registered, ServerAddress, PlayerInfo, LoginReply(7, NoError), FirstChunk(true, [67]),
             SetPlayerReply(8, NoError), AgeReply(10, NoError)]
  {
    var a, b, c: seq<Event> := [FromClient(RegisterReq), Login7], [LoggedIn7, File], [Player5, Confirmed5];
    var d: seq<Event>, quiet: seq<Reply> := [Age10, AgeFound], [];
    var r1: seq<Reply>, r3: seq<Reply> := [Registered, ServerAddress], [SetPlayerReply(8, NoError)];
    var r2: seq<Reply> := [PlayerInfo, LoginReply(7, NoError), FirstChunk(true, [67])];
    var r4: seq<Reply> := [AgeReply(10, NoError)];
    assert Talks(cfg, NewWorld, [Hello, Hello] + (a + (b + (c + d))), There, quiet + (r1 + (r2 + (r3 + r4)))) by {
      hide Talks;
      Meets(cfg);
      AsksIn(cfg);
      LogsIn(cfg);
      Enters(cfg);
      GoesToAge(cfg);
      TalksOn(cfg, Loading, c, Inside, r3, d, There, r4);
      TalksOn(cfg, Asking, b, Loading, r2, c + d, There, r3 + r4);
      TalksOn(cfg, Met, a, Asking, r1, b + (c + d), There, r2 + (r3 + r4));
      TalksOn(cfg, NewWorld, [Hello, Hello], Met, quiet, a + (b + (c + d)), There, r1 + (r2 + (r3 + r4)));
    }
    hide PossibleRun, Run, TalkOf;
    assert quiet + (r1 + (r2 + (r3 + r4)))
        == [Registered, ServerAddress, PlayerInfo, LoginReply(7, NoError), FirstChunk(true, [67]),
            SetPlayerReply(8, NoError), AgeReply(10, NoError)];
  }
}

/** The login, player selection and age request protocol between a client, the auth server and the
    backend (AuthServer.cc), as a state machine. */
module AuthRules {
  import opened Wire

  datatype Phase =
    | Start | NegotiationDone | NonceDone | Register | Login | LoginDone | Download | InStartup
    | VaultDownload | AgeReq | InGame

  /** The states are compared by order. */
  function Rank(p: Phase): nat {
    match p
    case Start => 0 case NegotiationDone => 1 case NonceDone => 2 case Register => 3 case Login => 4
    case LoginDone => 5 case Download => 6 case InStartup => 7 case VaultDownload => 8 case AgeReq => 9
    case InGame => 10
  }

  /** Compile-time and command-line choices. */
  datatype Config = Config(noAcks: bool, downloadRequired: bool, vaultManager: bool)

  datatype Status =
    | NoError | PlayerNotFound | AcctNotFound | Forbidden | InvalidParam | NoResponse | NameInvalid
    | NotSupported | Disconnected | LoggedInElsewhere | OtherStatus(code: nat)

  datatype Reason = NoShutdown | ProtocolError | UnexpectedState | ServerShutdown | KeyError

  /** An account is known by its UUID, a player by its KI number. */
  type Uuid = nat
  type Ki = nat

  datatype Session = Session(
    phase: Phase, reqid: U32, kinum: Ki, uuid: Uuid, dir: Option<Bytes>, downloading: bool)

  const Fresh := Session(Start, 0, 0, 0, None, false)

  /** What the server sends to the backend. */
  datatype Query =
    | LoginQuery(reqid: U32, login: Bytes)
    | PasswordQuery(uuid: Uuid, reqid: U32)
    | CreateQuery(reqid: U32, uuid: Uuid, name: Bytes)
    | DeleteQuery(reqid: U32, kinum: Ki)
    | KiQuery(uuid: Uuid, kinum: Ki)
    | LogoutNotice(kinum: Ki)
    | VaultQuery
    | AgeQuery(reqid: U32)

  /** What it sends to the client. */
  datatype Reply =
    | Pong | Kick(why: Status) | Registered | ServerAddress
    | LoginReply(reqid: U32, status: Status) | PlayerInfo
    | PasswordReply(reqid: U32, status: Status)
    | FirstChunk(manifest: bool, name: Bytes) | NextChunk
    | CreateReply(reqid: U32, status: Status)
    | DeleteReply(reqid: U32, status: Status)
    | SetPlayerReply(reqid: U32, status: Status)
    | InviteReply(reqid: U32)
    | VaultReply
    | AgeReply(reqid: U32, status: Status)

  datatype Out = Out(session: Session, queries: seq<Query>, replies: seq<Reply>, reason: Reason)

  function Quiet(s: Session): Out { Out(s, [], [], NoShutdown) }
  function Ask(s: Session, q: Query): Out { Out(s, [q], [], NoShutdown) }
  function Tell(s: Session, r: Reply): Out { Out(s, [], [r], NoShutdown) }
  function KickOut(s: Session, why: Status): Out { Out(s, [], [Kick(why)], UnexpectedState) }

  // ---------- File names ----------

  const DOT: Byte := 46
  const SLASH: Byte := 47
  const BACKSLASH: Byte := 92
  const MBAM: Bytes := [46, 109, 98, 97, 109]

  function Suffix(manifest: bool): Bytes { if manifest then MBAM else [] }

  predicate Separator(b: Byte) { b == SLASH || b == BACKSLASH }

  /** The i-th and the next character are dots; the suffix is already in place. */
  predicate DotsAt(name: Bytes, i: nat) { i + 1 < |name| && name[i] == DOT && name[i + 1] == DOT }

  predicate NameSafe(name: Bytes, manifest: bool) {
    var full := name + Suffix(manifest);
    forall i | 0 <= i < |name| :: !DotsAt(full, i) && !(manifest && Separator(name[i]))
  }

  function Slashed(name: Bytes): (r: Bytes)
    ensures |r| == |name|
  {
    seq(|name|, i requires 0 <= i < |name| => if name[i] == BACKSLASH then SLASH else name[i])
  }

  // ---------- Messages from the client ----------

  datatype FromClient =
    | Handshake(recognised: bool, useable: bool, keyOk: bool)
    | Unrecognised(empty: bool)
    | Unuseable
    | Ping
    | LoginReq(lreqid: U32, login: Bytes)
    | PasswordChange(preqid: U32, nameEmpty: bool, nameIsEmail: bool)
    | ChunkAck(last: bool)
    | FileReq(manifest: bool, name: Bytes)
    | PlayerCreate(creqid: U32, player: Bytes)
    | VaultReq(implemented: bool)
    | AgeRequest(areqid: U32)
    | RegisterReq
    | SetPlayer(sreqid: U32, newKi: Ki)
    | PlayerDelete(dreqid: U32, oldKi: Ki)
    | FriendInvite(ireqid: U32)
    | Ignored

  /** Which messages the connection can be read as depends on its state. */
  predicate Readable(s: Session, m: FromClient) {
    m.Handshake? <==> Rank(s.phase) < Rank(NonceDone)
  }

  function Printable(name: Bytes): bool { forall i | 0 <= i < |name| :: 32 <= name[i] <= 126 }

  function OnLogin(s: Session, reqid: U32, login: Bytes): Out {
    if Rank(s.phase) > Rank(Login) || Rank(s.phase) < Rank(Register) then Quiet(s)
    else if login == [] then Tell(s, LoginReply(reqid, AcctNotFound))
    else Ask(s.(reqid := reqid, phase := Login), LoginQuery(reqid, login))
  }

  function OnPassword(s: Session, reqid: U32, nameEmpty: bool, nameIsEmail: bool): Out {
    if Rank(s.phase) > Rank(InGame) then Tell(s, PasswordReply(reqid, Forbidden))
    else if nameEmpty then Tell(s, PasswordReply(reqid, AcctNotFound))
    else if !nameIsEmail then Tell(s, PasswordReply(reqid, InvalidParam))
    else Ask(s, PasswordQuery(s.uuid, reqid))
  }

  function OnAck(cfg: Config, s: Session, last: bool): Out {
    if Rank(s.phase) > Rank(Download) then KickOut(s, Disconnected)
    else if cfg.noAcks || !s.downloading then Quiet(s)
    else if last then Quiet(s.(downloading := false))
    else Tell(s, NextChunk)
  }

  function OnFile(cfg: Config, s: Session, manifest: bool, name: Bytes): Out {
    if Rank(s.phase) > Rank(Download) || s.dir.None? || s.downloading then KickOut(s, Disconnected)
    else if !NameSafe(name, manifest) then KickOut(s.(phase := Download, downloading := true), InvalidParam)
    else Tell(s.(phase := Download, downloading := !(manifest || cfg.noAcks)), FirstChunk(manifest, Slashed(name)))
  }

  function OnCreate(s: Session, reqid: U32, name: Bytes): Out {
    if !s.phase.InStartup? then KickOut(s, Disconnected)
    else if s.reqid != 0 then Tell(s, CreateReply(reqid, NoResponse))
    else if !Printable(name) then Tell(s.(reqid := 0), SetPlayerReply(reqid, NameInvalid))
    else Ask(s.(reqid := reqid), CreateQuery(reqid, s.uuid, name))
  }

  function OnVault(cfg: Config, s: Session, implemented: bool): Out {
    if (Rank(s.phase) < Rank(VaultDownload) && !cfg.vaultManager) || !implemented then Quiet(s) else Ask(s, VaultQuery)
  }

  function OnAge(s: Session, reqid: U32): Out {
    if Rank(s.phase) < Rank(VaultDownload) then KickOut(s, Disconnected)
    else Ask(s.(phase := AgeReq, reqid := reqid), AgeQuery(reqid))
  }

  function OnRegister(s: Session): Out {
    if s.phase.NonceDone? then Out(s.(phase := Register), [], [Registered, ServerAddress], NoShutdown) else Quiet(s)
  }

  predicate MaySetPlayer(cfg: Config, s: Session, newKi: Ki) {
    s.phase.Download? || s.phase.InStartup? || (!cfg.downloadRequired && s.phase.LoginDone?)
    || (s.phase.InGame? && newKi == 0)
  }

  function OnSetPlayer(cfg: Config, s: Session, reqid: U32, newKi: Ki): Out {
    if cfg.downloadRequired && Rank(s.phase) < Rank(Download) then KickOut(s, Disconnected)
    else if !MaySetPlayer(cfg, s, newKi) then Quiet(s)
    else
      var s1 := s.(phase := InStartup, kinum := newKi, reqid := if newKi == 0 then 0 else reqid,
                   downloading := s.downloading && !s.phase.Download?);
      if newKi != 0 then Ask(s1, KiQuery(s.uuid, newKi))
      else Out(s1, if s.kinum != 0 then [LogoutNotice(s.kinum)] else [], [SetPlayerReply(reqid, NoError)], NoShutdown)
  }

  function OnDelete(s: Session, reqid: U32, oldKi: Ki): Out {
    if !s.phase.InStartup? then Tell(s.(reqid := 0), DeleteReply(reqid, InvalidParam))
    else Ask(s.(reqid := reqid), DeleteQuery(reqid, oldKi))
  }

  function OnHandshake(s: Session, recognised: bool, useable: bool, keyOk: bool): Out {
    if !recognised then Out(s, [], [], ProtocolError)
    else if s.phase.Start? then Quiet(s.(phase := NegotiationDone))
    else if !useable then Out(s, [], [], ProtocolError)
    else if !keyOk then Out(s, [], [], KeyError)
    else Quiet(s.(phase := NonceDone))
  }

  function ClientStep(cfg: Config, s: Session, m: FromClient): Out
    requires Readable(s, m)
  {
    match m
    case Handshake(recognised, useable, keyOk) => OnHandshake(s, recognised, useable, keyOk)
    case Unrecognised(empty) => if empty then Out(s, [], [], ProtocolError) else Quiet(s)
    case Unuseable => Out(s, [], [], ProtocolError)
    case Ping => Tell(s, Pong)
    case LoginReq(reqid, login) => OnLogin(s, reqid, login)
    case PasswordChange(reqid, nameEmpty, nameIsEmail) => OnPassword(s, reqid, nameEmpty, nameIsEmail)
    case ChunkAck(last) => OnAck(cfg, s, last)
    case FileReq(manifest, name) => OnFile(cfg, s, manifest, name)
    case PlayerCreate(reqid, name) => OnCreate(s, reqid, name)
    case VaultReq(implemented) => OnVault(cfg, s, implemented)
    case AgeRequest(reqid) => OnAge(s, reqid)
    case RegisterReq => OnRegister(s)
    case SetPlayer(reqid, newKi) => OnSetPlayer(cfg, s, reqid, newKi)
    case PlayerDelete(reqid, oldKi) => OnDelete(s, reqid, oldKi)
    case FriendInvite(reqid) => Tell(s, InviteReply(reqid))
    case Ignored => Quiet(s)
  }

  // ---------- Messages from the backend ----------

  datatype FromBackend =
    | KillClient(newLogin: bool)
    | LoginResult(lreqid: U32, status: Status, acct: Uuid, dir: Bytes, players: bool)
    | KiResult(kinum: Ki, status: Status)
    | PasswordResult(preqid: U32, status: Status)
    | CreateResult(creqid: U32, status: Status)
    | DeleteResult(dreqid: U32, status: Status)
    | VaultResult
    | AgeResult(areqid: U32, status: Status)
    | Notice

  function OnLoginResult(s: Session, reqid: U32, status: Status, acct: Uuid, dir: Bytes, players: bool): Out {
    if !s.phase.Login? || s.reqid != reqid then Quiet(s)
    else if !status.NoError? then Tell(s.(reqid := 0), LoginReply(reqid, status))
    else
      Out(s.(phase := LoginDone, uuid := acct, dir := Some(dir), reqid := 0), [],
          (if players then [PlayerInfo] else []) + [LoginReply(reqid, status)], NoShutdown)
  }

  function OnKiResult(s: Session, kinum: Ki, status: Status): Out {
    if !s.phase.InStartup? || s.kinum != kinum then Quiet(s)
    else if status.PlayerNotFound? then KickOut(s, status)
    else Tell(if status.NoError? then s.(phase := VaultDownload) else s, SetPlayerReply(s.reqid, status))
  }

  /** A reply to a request that is no longer current is passed on all the same. */
  function Completed(s: Session, reqid: U32): Session {
    if s.phase.InStartup? && s.reqid == reqid then s.(reqid := 0) else s
  }

  function OnAgeResult(s: Session, reqid: U32, status: Status): Out {
    if !s.phase.AgeReq? || s.reqid != reqid then Quiet(s)
    else Tell(s.(reqid := 0, phase := if status.NoError? then InGame else AgeReq), AgeReply(reqid, status))
  }

  function BackendStep(s: Session, b: FromBackend): Out {
    match b
    case KillClient(newLogin) =>
      Out(s, [], [Kick(if newLogin then LoggedInElsewhere else OtherStatus(1))], ServerShutdown)
    case LoginResult(reqid, status, acct, dir, players) => OnLoginResult(s, reqid, status, acct, dir, players)
    case KiResult(kinum, status) => OnKiResult(s, kinum, status)
    case PasswordResult(reqid, status) => Tell(s, PasswordReply(reqid, status))
    case CreateResult(reqid, status) => Tell(Completed(s, reqid), CreateReply(reqid, status))
    case DeleteResult(reqid, status) => Tell(Completed(s, reqid), DeleteReply(reqid, status))
    case VaultResult => Tell(s, VaultReply)
    case AgeResult(reqid, status) => OnAgeResult(s, reqid, status)
    case Notice => Quiet(s)
  }
}

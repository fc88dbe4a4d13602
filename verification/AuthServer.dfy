/** The auth server's side of one client's session (AuthServer.cc). */
module AuthServer {
  import opened Wire
  import opened AuthRules
  import opened AuthSafety

  /** A file name that passed has no ".." left in it, suffix included, and a manifest's has no
      separator either. */
  lemma SafeNames(name: Bytes, manifest: bool)
    requires NameSafe(name, manifest)
    ensures forall i | 0 <= i < |name| + |Suffix(manifest)| :: !DotsAt(Slashed(name) + Suffix(manifest), i)
    ensures manifest ==> forall i | 0 <= i < |name| :: !Separator(Slashed(name)[i])
  {
    var full, sent := name + Suffix(manifest), Slashed(name) + Suffix(manifest);
    assert forall k | 0 <= k < |full| :: sent[k] == DOT <==> full[k] == DOT;
    forall i | 0 <= i < |full| ensures !DotsAt(sent, i) {
      if i < |name| {
        assert !DotsAt(full, i);
      } else {
        assert i > |name| ==> full[i] == MBAM[i - |name|];
        assert i + 1 < |full| ==> full[i + 1] == MBAM[i + 1 - |name|];
      }
    }
  }

  lemma SlashedAt(name: Bytes, i: nat)
    requires i < |name|
    ensures Slashed(name)[i] == if Separator(name[i]) then SLASH else name[i]
  {
  }

  class AuthServer {
    const cfg: Config
    var state: Phase
    var reqid: U32
    var kinum: Ki
    var clientUuid: Uuid
    var downloadDir: Option<Bytes>
    var download: bool
    /** What has been enqueued for the backend and for the client. */
    var toVault: seq<Query>
    var toClient: seq<Reply>

    ghost function View(): Session
      reads this
    {
      Session(state, reqid, kinum, clientUuid, downloadDir, download)
    }

    twostate predicate Does(out: Out, reason: Reason)
      reads this
    {
      && View() == out.session && reason == out.reason
      && toVault == old(toVault) + out.queries && toClient == old(toClient) + out.replies
    }

    constructor (cfg: Config)
      ensures this.cfg == cfg && View() == Fresh && toVault == [] && toClient == []
    {
      this.cfg := cfg;
      state, reqid, kinum, clientUuid, downloadDir, download := Start, 0, 0, 0, None, false;
      toVault, toClient := [], [];
    }

    method Handshake(recognised: bool, useable: bool, keyOk: bool) returns (reason: Reason)
      modifies this
      ensures Does(OnHandshake(old(View()), recognised, useable, keyOk), reason)
    {
      if !recognised {
        return ProtocolError;
      }
      if state.Start? {
        state := NegotiationDone;
      } else if useable {
        if !keyOk {
          return KeyError;
        }
        state := NonceDone;
      } else {
        return ProtocolError;
      }
      reason := NoShutdown;
    }

    method Login(rid: U32, login: Bytes) returns (reason: Reason)
      modifies this
      ensures Does(OnLogin(old(View()), rid, login), reason)
    {
      reason := NoShutdown;
      if Rank(state) > Rank(AuthRules.Login) || Rank(state) < Rank(Register) {
      } else if login == [] {
        toClient := toClient + [LoginReply(rid, AcctNotFound)];
      } else {
        reqid := rid;
        state := AuthRules.Login;
        toVault := toVault + [LoginQuery(reqid, login)];
      }
    }

    method ChangePassword(rid: U32, nameEmpty: bool, nameIsEmail: bool) returns (reason: Reason)
      modifies this
      ensures Does(OnPassword(old(View()), rid, nameEmpty, nameIsEmail), reason)
    {
      reason := NoShutdown;
      if Rank(state) > Rank(InGame) {
        toClient := toClient + [PasswordReply(rid, Forbidden)];
      } else if nameEmpty {
        toClient := toClient + [PasswordReply(rid, AcctNotFound)];
      } else if !nameIsEmail {
        toClient := toClient + [PasswordReply(rid, InvalidParam)];
      } else {
        toVault := toVault + [PasswordQuery(clientUuid, rid)];
      }
    }

    method Kicked(why: Status) returns (reason: Reason)
      modifies this`toClient
      ensures toClient == old(toClient) + [Kick(why)] && reason == UnexpectedState
    {
      toClient := toClient + [Kick(why)];
      reason := UnexpectedState;
    }

    method Acknowledge(last: bool) returns (reason: Reason)
      modifies this
      ensures Does(OnAck(cfg, old(View()), last), reason)
    {
      reason := NoShutdown;
      if Rank(state) > Rank(Download) {
        reason := Kicked(Disconnected);
      } else if !cfg.noAcks && download {
        if !last {
          toClient := toClient + [NextChunk];
        } else {
          download := false;
        }
      }
    }

    /** The name is checked in its buffer, with the suffix in place, and separators are replaced. */
    method CheckName(name: Bytes, manifest: bool) returns (fname: array<Byte>, ok: bool)
      ensures fresh(fname)
      ensures ok <==> NameSafe(name, manifest)
      ensures ok ==> fname[..] == Slashed(name) + Suffix(manifest)
    {
      hide Suffix, Slashed;
      var ret := |name|;
      var full := name + Suffix(manifest);
      fname := new Byte[|full|](i requires 0 <= i < |full| => full[i]);
      for i := 0 to ret
        invariant forall j | 0 <= j < i :: fname[j] == Slashed(name)[j]
        invariant forall j | i <= j < |full| :: fname[j] == full[j]
        invariant forall j | 0 <= j < i :: !DotsAt(full, j) && !(manifest && Separator(name[j]))
      {
        SlashedAt(name, i);
        if (fname[i] == DOT && i + 1 < fname.Length && fname[i + 1] == DOT) || Separator(fname[i]) {
          if !manifest && Separator(fname[i]) {
            fname[i] := SLASH;
          } else {
            assert DotsAt(full, i) || (manifest && Separator(name[i]));
            return fname, false;
          }
        }
      }
      assert fname[..] == Slashed(name) + Suffix(manifest);
      ok := true;
    }

    method RequestFile(manifest: bool, name: Bytes) returns (reason: Reason)
      modifies this
      ensures Does(OnFile(cfg, old(View()), manifest, name), reason)
    {
      hide NameSafe, Slashed;
      reason := NoShutdown;
      if Rank(state) > Rank(Download) || downloadDir.None? || download {
        reason := Kicked(Disconnected);
        return;
      }
      state := Download;
      download := true;
      var fname, ok := CheckName(name, manifest);
      if !ok {
        reason := Kicked(InvalidParam);
        return;
      }
      assert (Slashed(name) + Suffix(manifest))[..|name|] == Slashed(name);
      toClient := toClient + [FirstChunk(manifest, fname[..|name|])];
      if manifest || cfg.noAcks {
        download := false;
      }
    }

    method CreatePlayer(rid: U32, name: Bytes) returns (reason: Reason)
      modifies this
      ensures Does(OnCreate(old(View()), rid, name), reason)
    {
      reason := NoShutdown;
      if state != InStartup {
        reason := Kicked(Disconnected);
        return;
      }
      if reqid != 0 {
        toClient := toClient + [CreateReply(rid, NoResponse)];
        return;
      }
      reqid := rid;
      var i := 0;
      while i < |name| && 32 <= name[i] <= 126
        invariant i <= |name| && forall j | 0 <= j < i :: 32 <= name[j] <= 126
      {
        i := i + 1;
      }
      if i < |name| {
        toClient := toClient + [SetPlayerReply(reqid, NameInvalid)];
        reqid := 0;
      } else {
        toVault := toVault + [CreateQuery(reqid, clientUuid, name)];
      }
    }

    method UseVault(implemented: bool) returns (reason: Reason)
      modifies this
      ensures Does(OnVault(cfg, old(View()), implemented), reason)
    {
      reason := NoShutdown;
      if Rank(state) < Rank(VaultDownload) && !cfg.vaultManager {
      } else if implemented {
        toVault := toVault + [VaultQuery];
      }
    }

    method RequestAge(rid: U32) returns (reason: Reason)
      modifies this
      ensures Does(OnAge(old(View()), rid), reason)
    {
      if Rank(state) < Rank(VaultDownload) {
        reason := Kicked(Disconnected);
        return;
      }
      state := AgeReq;
      reqid := rid;
      toVault := toVault + [AgeQuery(reqid)];
      reason := NoShutdown;
    }

    method SetPlayer(rid: U32, newKi: Ki) returns (reason: Reason)
      modifies this
      ensures Does(OnSetPlayer(cfg, old(View()), rid, newKi), reason)
    {
      reason := NoShutdown;
      if cfg.downloadRequired && Rank(state) < Rank(Download) {
        reason := Kicked(Disconnected);
        return;
      }
      if state != Download && state != InStartup && (cfg.downloadRequired || state != LoginDone)
         && !(state == InGame && newKi == 0) {
        return;
      }
      if state == Download && download {
        download := false;
      }
      state := InStartup;
      reqid := rid;
      if newKi != 0 {
        toVault := toVault + [KiQuery(clientUuid, newKi)];
      } else {
        reqid := 0;
        toClient := toClient + [SetPlayerReply(rid, NoError)];
        if kinum != 0 {
          toVault := toVault + [LogoutNotice(kinum)];
        }
      }
      kinum := newKi;
    }

    method DeletePlayer(rid: U32, oldKi: Ki) returns (reason: Reason)
      modifies this
      ensures Does(OnDelete(old(View()), rid, oldKi), reason)
    {
      reqid := rid;
      if state != InStartup {
        toClient := toClient + [DeleteReply(reqid, InvalidParam)];
        reqid := 0;
      } else {
        toVault := toVault + [DeleteQuery(reqid, oldKi)];
      }
      reason := NoShutdown;
    }

    method RegisterClient() returns (reason: Reason)
      modifies this
      ensures Does(OnRegister(old(View())), reason)
    {
      if state == NonceDone {
        state := Register;
        toClient := toClient + [Registered, ServerAddress];
      }
      reason := NoShutdown;
    }

    /** message_read */
    method MessageRead(m: FromClient) returns (reason: Reason)
      requires Readable(View(), m)
      modifies this
      ensures Does(ClientStep(cfg, old(View()), m), reason)
    {
      hide OnHandshake, OnLogin, OnPassword, OnAck, OnFile, OnCreate, OnVault, OnAge, OnRegister, OnSetPlayer, OnDelete;
      reason := NoShutdown;
      match m {
        case Handshake(recognised, useable, keyOk) => reason := Handshake(recognised, useable, keyOk);
        case Unrecognised(empty) =>
          if empty {
            reason := ProtocolError;
          }
        case Unuseable => reason := ProtocolError;
        case Ping => toClient := toClient + [Pong];
        case LoginReq(rid, login) => reason := Login(rid, login);
        case PasswordChange(rid, nameEmpty, nameIsEmail) => reason := ChangePassword(rid, nameEmpty, nameIsEmail);
        case ChunkAck(last) => reason := Acknowledge(last);
        case FileReq(manifest, name) => reason := RequestFile(manifest, name);
        case PlayerCreate(rid, name) => reason := CreatePlayer(rid, name);
        case VaultReq(implemented) => reason := UseVault(implemented);
        case AgeRequest(rid) => reason := RequestAge(rid);
        case RegisterReq => reason := RegisterClient();
        case SetPlayer(rid, newKi) => reason := SetPlayer(rid, newKi);
        case PlayerDelete(rid, oldKi) => reason := DeletePlayer(rid, oldKi);
        case FriendInvite(rid) => toClient := toClient + [InviteReply(rid)];
        case Ignored =>
      }
    }

    // ---------- Replies from the backend ----------

    method LoginAnswered(rid: U32, status: Status, acct: Uuid, dir: Bytes, players: bool) returns (reason: Reason)
      modifies this
      ensures Does(OnLoginResult(old(View()), rid, status, acct, dir, players), reason)
    {
      reason := NoShutdown;
      if state != AuthRules.Login || reqid != rid {
        return;
      }
      if status != NoError {
        toClient := toClient + [LoginReply(reqid, status)];
      } else {
        clientUuid := acct;
        downloadDir := Some(dir);
        state := LoginDone;
        if players {
          toClient := toClient + [PlayerInfo];
        }
        toClient := toClient + [LoginReply(reqid, status)];
      }
      reqid := 0;
    }

    method KiAnswered(ki: Ki, status: Status) returns (reason: Reason)
      modifies this
      ensures Does(OnKiResult(old(View()), ki, status), reason)
    {
      reason := NoShutdown;
      if state != InStartup || kinum != ki {
        return;
      }
      if status != NoError {
        if status == PlayerNotFound {
          reason := Kicked(status);
          return;
        }
      } else {
        state := VaultDownload;
      }
      toClient := toClient + [SetPlayerReply(reqid, status)];
    }

    method AgeAnswered(rid: U32, status: Status) returns (reason: Reason)
      modifies this
      ensures Does(OnAgeResult(old(View()), rid, status), reason)
    {
      reason := NoShutdown;
      if state != AgeReq || reqid != rid {
        return;
      }
      reqid := 0;
      if status == NoError {
        state := InGame;
      }
      toClient := toClient + [AgeReply(rid, status)];
    }

    method Complete(rid: U32)
      modifies this`reqid
      ensures View() == Completed(old(View()), rid)
    {
      if state == InStartup && reqid == rid {
        reqid := 0;
      }
    }

    /** backend_message */
    method BackendMessage(b: FromBackend) returns (reason: Reason)
      modifies this
      ensures Does(BackendStep(old(View()), b), reason)
    {
      hide OnLoginResult, OnKiResult, OnAgeResult, Completed;
      reason := NoShutdown;
      match b {
        case KillClient(newLogin) =>
          toClient := toClient + [Kick(if newLogin then LoggedInElsewhere else OtherStatus(1))];
          reason := ServerShutdown;
        case LoginResult(rid, status, acct, dir, players) => reason := LoginAnswered(rid, status, acct, dir, players);
        case KiResult(ki, status) => reason := KiAnswered(ki, status);
        case PasswordResult(rid, status) => toClient := toClient + [PasswordReply(rid, status)];
        case CreateResult(rid, status) =>
          Complete(rid);
          toClient := toClient + [CreateReply(rid, status)];
        case DeleteResult(rid, status) =>
          Complete(rid);
          toClient := toClient + [DeleteReply(rid, status)];
        case VaultResult => toClient := toClient + [VaultReply];
        case AgeResult(rid, status) => reason := AgeAnswered(rid, status);
        case Notice =>
      }
    }
  }

  /** A whole session, in any order of events that can happen. */
  method Serve(cfg: Config, es: seq<Event>) returns (server: AuthServer, ghost w: World)
    requires PossibleRun(cfg, NewWorld, es)
    ensures fresh(server) && w == Run(cfg, NewWorld, es)
    ensures server.View() == w.session && server.toVault == w.asked && Safe(cfg, w)
  {
    hide ClientStep, BackendStep, Safe;
    server := new AuthServer(cfg);
    w := NewWorld;
    SafeAtFirst(cfg);
    SafeRun(cfg, NewWorld, es);
    assert es[0..] == es;
    for i := 0 to |es|
      invariant fresh(server) && server.cfg == cfg && server.View() == w.session && server.toVault == w.asked
      invariant PossibleRun(cfg, w, es[i..]) && Run(cfg, w, es[i..]) == Run(cfg, NewWorld, es)
    {
      assert es[i..][0] == es[i] && es[i..][1..] == es[i + 1..];
      var reason;
      match es[i] {
        case FromClient(m) => reason := server.MessageRead(m);
        case FromBackend(b, _) => reason := server.BackendMessage(b);
      }
      w := Next(cfg, w, es[i]);
    }
    assert es[|es|..] == [];
  }
}

/** The password a session logs in with: where it may come from, in which order the sources are
    tried, and which of them may reach the stored settings of the peer. */
module Login {
  import opened Wrappers

  type Bytes = seq<byte>

  type Digest = d: Bytes | |d| == 32 witness seq(32, _ => 0)

  /** SHA-256. */
  type Hasher = Bytes -> Digest

  datatype Hash = Hash(salt: Bytes, challenge: Bytes)

  datatype PasswordSource = PersonalAb(hash: Bytes) | SharedAb(text: Bytes) | Undefined {
    predicate IsPersonalAb(password: Bytes) {
      password != [] && PersonalAb? && hash == password
    }

    predicate IsSharedAb(sha: Hasher, password: Bytes, peer: Hash) {
      password != [] && SharedAb? && sha(text + peer.salt) == password
    }
  }

  /** Where a password was taken from; the program does not keep this, the proofs do. */
  datatype Origin = Nowhere | Typed | Preset | SharedBook | Stored | PersonalBook | BuiltIn {
    /** A shared address-book entry, or the built-in default that is treated as one. */
    predicate IsShared() {
      SharedBook? || BuiltIn?
    }
  }

  datatype ConnToken = ConnToken(password: Bytes, source: PasswordSource, sessionId: nat)

  /** What the handler of one session knows. */
  datatype Session = Session(
    password: Bytes, origin: Origin, source: PasswordSource, shared: Option<Bytes>, switchUuid: Option<Bytes>,
    remember: bool, config: Bytes, hash: Hash, sessionId: nat)

  const NEW := Session([], Nowhere, Undefined, None, None, false, [], Hash([], []), 0)

  /** The password stored for the peer. */
  datatype StoredPassword = StoredPassword(password: Bytes, origin: Origin)

  /** What a hash message finds: the preset text, whether the switch request is trusted, the entry of
      the personal address book, and the built-in default text. */
  datatype Offers = Offers(preset: Bytes, trusted: bool, personal: Bytes, builtIn: Bytes)

  datatype Reply =
    | SwitchLogin
    | TerminalAdminPrompt(askPassword: bool)
    | LoginRequest(response: Bytes, prompted: bool)

  datatype LoginError = PasswordEmpty | PasswordWrong | TwoFactor | Known(tryAgain: bool) | Unknown

  // ----- what each operation does to a session

  /** The token's id, or a random one; never 0. */
  function SessionIdFor(token: Option<ConnToken>, random: nat): (sid: nat)
    ensures sid > 0 && (random > 0 && (token.None? || token.value.sessionId == 0) ==> sid == random)
    ensures token.Some? && token.value.sessionId > 0 ==> sid == token.value.sessionId
  {
    if token.Some? && token.value.sessionId != 0 then token.value.sessionId
    else if random == 0 then 1
    else random
  }

  function Opened(s: Session, uuid: Option<Bytes>, shared: Option<Bytes>, token: Option<ConnToken>, origin: Origin,
                  random: nat, stored: Bytes): Session {
    var t := s.(remember := stored != [], config := stored, sessionId := SessionIdFor(token, random),
                switchUuid := uuid, shared := shared);
    if token.Some? then t.(password := token.value.password, source := token.value.source, origin := origin) else t
  }

  function TokenOf(s: Session): Option<ConnToken> {
    if s.password == [] then None else Some(ConnToken(s.password, s.source, s.sessionId))
  }

  function FirstNonEmpty(choices: seq<(Bytes, PasswordSource, Origin)>, otherwise: (Bytes, PasswordSource, Origin))
    : (Bytes, PasswordSource, Origin)
  {
    if choices == [] then otherwise
    else if choices[0].0 != [] then choices[0]
    else FirstNonEmpty(choices[1..], otherwise)
  }

  /** The digest of a text with the peer's salt, or nothing for an absent or empty text. */
  function Salted(sha: Hasher, text: Option<Bytes>, salt: Bytes): Bytes {
    if text.None? || text.value == [] then [] else sha(text.value + salt)
  }

  /** The sources a hash message tries, the one that wins first: the shared entry that was clicked, the
      last password, the preset, the stored password, the personal entry, the built-in default. */
  function Choices(sha: Hasher, s: Session, o: Offers, salt: Bytes): seq<(Bytes, PasswordSource, Origin)> {
    [(Salted(sha, s.shared, salt), if s.shared.Some? then SharedAb(s.shared.value) else Undefined, SharedBook),
     (s.password, s.source, s.origin),
     (Salted(sha, Some(o.preset), salt), Undefined, Preset),
     (s.config, Undefined, Stored),
     (o.personal, PersonalAb(o.personal), PersonalBook),
     (Salted(sha, Some(o.builtIn), salt), SharedAb(o.builtIn), BuiltIn)]
  }

  function Hashed(sha: Hasher, s: Session, hash: Hash, o: Offers): Session {
    if s.switchUuid.Some? && o.trusted then
      s.(hash := hash, switchUuid := None, source := Undefined)
    else
      var chosen := FirstNonEmpty(Choices(sha, s, o, hash.salt), ([], s.source, Nowhere));
      s.(hash := hash, switchUuid := None, shared := None,
         password := chosen.0, source := chosen.1, origin := chosen.2)
  }

  /** What a hash message is answered with. */
  function ReplyTo(sha: Hasher, admin: bool, s: Session, hash: Hash, o: Offers): Reply {
    var password := Hashed(sha, s, hash, o).password;
    if s.switchUuid.Some? && o.trusted then SwitchLogin
    else if admin then TerminalAdminPrompt(password == [])
    else if password == [] then LoginRequest([], true)
    else LoginRequest(sha(password + hash.challenge), false)
  }

  predicate Prompts(r: Reply) {
    match r
    case SwitchLogin => false
    case TerminalAdminPrompt(askPassword) => askPassword
    case LoginRequest(_, prompted) => prompted
  }

  /** The same choice as a chain of tests. */
  function Winner(sha: Hasher, s: Session, o: Offers, salt: Bytes): (Bytes, PasswordSource, Origin) {
    if s.shared.Some? && s.shared.value != [] then
      (sha(s.shared.value + salt), SharedAb(s.shared.value), SharedBook)
    else if s.password != [] then (s.password, s.source, s.origin)
    else if o.preset != [] then (sha(o.preset + salt), Undefined, Preset)
    else if s.config != [] then (s.config, Undefined, Stored)
    else if o.personal != [] then (o.personal, PersonalAb(o.personal), PersonalBook)
    else if o.builtIn != [] then (sha(o.builtIn + salt), SharedAb(o.builtIn), BuiltIn)
    else ([], s.source, Nowhere)
  }

  function Refused(s: Session, err: LoginError): Session {
    if err.PasswordEmpty? || err.PasswordWrong? then s.(password := [], origin := Nowhere) else s
  }

  function LoggedInFromUi(sha: Hasher, s: Session, typed: Bytes, remember: bool): Session {
    if typed != [] then
      s.(password := sha(typed + s.hash.salt), source := Undefined, origin := Typed, remember := remember)
    else if s.password != [] then s
    else if s.config != [] then s.(password := s.config, source := Undefined, origin := Stored)
    else s.(origin := Nowhere)
  }

  function StoredAfter(sha: Hasher, s: Session, stored: StoredPassword): StoredPassword {
    if s.remember then
      if s.password != [] && s.password != stored.password && !s.source.IsSharedAb(sha, s.password, s.hash)
      then StoredPassword(s.password, s.origin) else stored
    else if s.source.IsPersonalAb(s.password) then StoredPassword(s.password, s.origin)
    else StoredPassword([], Nowhere)
  }

  // ----- the handler

  class PeerStore {
    var password: Bytes
    ghost var origin: Origin

    ghost function View(): StoredPassword
      reads this
    {
      StoredPassword(password, if password == [] then Nowhere else origin)
    }
  }

  class LoginConfigHandler {
    const sha: Hasher
    const store: PeerStore
    const isTerminal: bool
    const isTerminalAdmin: bool
    var password: Bytes
    var passwordSource: PasswordSource
    var sharedPassword: Option<Bytes>
    var switchUuid: Option<Bytes>
    var remember: bool
    var config: Bytes
    var hash: Hash
    var sessionId: nat
    ghost var origin: Origin

    ghost function View(): Session
      reads this
    {
      Session(password, origin, passwordSource, sharedPassword, switchUuid, remember, config, hash, sessionId)
    }

    constructor (sha: Hasher, store: PeerStore, isTerminal: bool, isTerminalAdmin: bool)
      ensures View() == NEW && this.store == store && this.sha == sha
      ensures this.isTerminal == isTerminal && this.isTerminalAdmin == isTerminalAdmin
    {
      this.sha, this.store, this.isTerminal, this.isTerminalAdmin := sha, store, isTerminal, isTerminalAdmin;
      password, passwordSource, sharedPassword, switchUuid := [], Undefined, None, None;
      remember, config, hash, sessionId, origin := false, [], Hash([], []), 0, Nowhere;
    }

    method Initialize(uuid: Option<Bytes>, shared: Option<Bytes>, token: Option<ConnToken>,
                      ghost tokenOrigin: Origin, random: nat)
      modifies this
      ensures View() == Opened(old(View()), uuid, shared, token, tokenOrigin, random, store.password)
    {
      config := store.password;
      remember := config != [];
      sessionId := PickSessionId(token, random);
      if token.Some? {
        password := token.value.password;
        passwordSource := token.value.source;
        origin := tokenOrigin;
      }
      switchUuid := uuid;
      sharedPassword := shared;
    }

    method PickSessionId(token: Option<ConnToken>, random: nat) returns (sid: nat)
      ensures sid == SessionIdFor(token, random)
    {
      sid := 0;
      if token.Some? {
        sid := token.value.sessionId;
      }
      if sid == 0 {
        sid := random;
        if sid == 0 {
          sid := 1;
        }
      }
    }

    method GetConnToken() returns (token: Option<ConnToken>)
      ensures token == TokenOf(View())
    {
      if password == [] {
        return None;
      }
      return Some(ConnToken(password, passwordSource, sessionId));
    }

    /** The part of the hash message that takes care of the password application order. */
    method ApplyPasswordOrder(o: Offers)
      modifies this
      ensures var s := old(View());
              var chosen := Winner(sha, s, o, s.hash.salt);
              View() == s.(shared := None, password := chosen.0, source := chosen.1, origin := chosen.2)
    {
      // last password
      var pw := password;
      // preset password
      if pw == [] {
        origin := Nowhere;
        if o.preset != [] {
          pw := sha(o.preset + hash.salt);
          passwordSource := Undefined;
          origin := Preset;
        }
      }
      // shared password
      var shared := sharedPassword;
      sharedPassword := None;
      if shared.Some? {
        if shared.value != [] {
          pw := sha(shared.value + hash.salt);
          passwordSource := SharedAb(shared.value);
          origin := SharedBook;
        }
      }
      // peer config password
      if pw == [] {
        pw := config;
        if pw != [] {
          passwordSource := Undefined;
          origin := Stored;
        }
      }
      // personal address book password
      if pw == [] {
        if o.personal != [] {
          pw := o.personal;
          passwordSource := PersonalAb(o.personal);
          origin := PersonalBook;
        }
      }
      // built-in default
      if pw == [] {
        if o.builtIn != [] {
          pw := sha(o.builtIn + hash.salt);
          passwordSource := SharedAb(o.builtIn);
          origin := BuiltIn;
        }
      }
      password := pw;
    }

    method HandleHash(newHash: Hash, o: Offers) returns (reply: Reply)
      modifies this
      ensures View() == Hashed(sha, old(View()), newHash, o)
      ensures reply == ReplyTo(sha, isTerminal && isTerminalAdmin, old(View()), newHash, o)
    {
      hash := newHash;
      // switch_uuid
      var uuid := switchUuid;
      switchUuid := None;
      if uuid.Some? && o.trusted {
        passwordSource := Undefined;
        return SwitchLogin;
      }
      ApplyPasswordOrder(o);
      FirstOfSix(sha, old(View()), o, newHash.salt);
      var pw := password;
      if isTerminal && isTerminalAdmin {
        return TerminalAdminPrompt(pw == []);
      }
      var response: Bytes := [];
      if pw != [] {
        response := sha(pw + newHash.challenge);
      }
      return LoginRequest(response, pw == []);
    }

    method HandleLoginError(err: LoginError) returns (again: bool)
      modifies this
      ensures View() == Refused(old(View()), err)
      ensures if err.PasswordEmpty? || err.PasswordWrong?
              then password == [] && View() == old(View()).(password := [], origin := Nowhere)
              else View() == old(View())
      ensures again == !(err.Unknown? || err == Known(false))
    {
      if err.PasswordEmpty? || err.PasswordWrong? {
        password := [];
        origin := Nowhere;
        return true;
      }
      match err
      case TwoFactor => return true;
      case Known(tryAgain) => return tryAgain;
      case Unknown => return false;
    }

    method HandleLoginFromUi(typed: Bytes, rememberIt: bool) returns (response: Bytes)
      modifies this
      ensures View() == LoggedInFromUi(sha, old(View()), typed, rememberIt)
      ensures response == sha(password + hash.challenge)
    {
      var pw: Bytes;
      if typed == [] {
        pw := password;
        if pw == [] {
          origin := Nowhere;
          pw := config;
          if pw != [] {
            passwordSource := Undefined;
            origin := Stored;
          }
        }
      } else {
        passwordSource := Undefined;
        pw := sha(typed + hash.salt);
        remember := rememberIt;
        origin := Typed;
      }
      password := pw;
      return sha(pw + hash.challenge);
    }

    /** A successful login: what is stored, and what is offered to the personal address book. */
    method HandlePeerInfo() returns (synced: Option<Bytes>)
      modifies this`config, store
      ensures store.View() == StoredAfter(sha, old(View()), old(store.View()))
      ensures View() == old(View()).(config := store.password)
      ensures synced == if store.password != [] && !passwordSource.IsSharedAb(sha, password, hash) &&
                           !passwordSource.IsPersonalAb(password) then Some(store.password) else None
    {
      var stored := store.password;
      var password0 := stored;
      ghost var storedOrigin := store.origin;
      if remember {
        if password != [] && password != password0 && !passwordSource.IsSharedAb(sha, password, hash) {
          stored := password;
          storedOrigin := origin;
        }
      } else {
        if passwordSource.IsPersonalAb(password) {
          stored := password;
          storedOrigin := origin;
        } else if password0 != [] {
          stored := [];
        }
      }
      synced := None;
      if stored != [] && !passwordSource.IsSharedAb(sha, password, hash) && !passwordSource.IsPersonalAb(password) {
        synced := Some(stored);
      }
      store.password := stored;
      store.origin := storedOrigin;
      config := stored;
    }
  }

  /** The winner, spelled out. */
  lemma {:induction false} FirstOfSix(sha: Hasher, s: Session, o: Offers, salt: Bytes)
    ensures FirstNonEmpty(Choices(sha, s, o, salt), ([], s.source, Nowhere)) == Winner(sha, s, o, salt)
  {
    var c, e := Choices(sha, s, o, salt), ([], s.source, Nowhere);
    forall i | 0 <= i < 6
      ensures FirstNonEmpty(c[i..], e) == if c[i].0 != [] then c[i] else FirstNonEmpty(c[i + 1..], e)
    {
      assert c[i..][0] == c[i] && c[i..][1..] == c[i + 1..];
    }
    assert c[0..] == c && c[6..] == [];
    assert FirstNonEmpty(c[5..], e) == if c[5].0 != [] then c[5] else e;
    assert FirstNonEmpty(c[4..], e) == if c[4].0 != [] then c[4] else FirstNonEmpty(c[5..], e);
    assert FirstNonEmpty(c[3..], e) == if c[3].0 != [] then c[3] else FirstNonEmpty(c[4..], e);
    assert FirstNonEmpty(c[2..], e) == if c[2].0 != [] then c[2] else FirstNonEmpty(c[3..], e);
    assert FirstNonEmpty(c[1..], e) == if c[1].0 != [] then c[1] else FirstNonEmpty(c[2..], e);
  }

  // ----- which password a session ends up with

  predicate Offered(text: Option<Bytes>) {
    text.Some? && text.value != []
  }

  /** After a refusal the next hash message never sends the refused password again for its own sake:
      what is sent is a clicked entry or a preset, the stored password, the personal entry or the
      default, and the user is asked exactly when there is none of them. */
  lemma {:induction false} RefusedAsksAgain(sha: Hasher, admin: bool, s: Session, err: LoginError, hash: Hash,
                                            o: Offers)
    requires err.PasswordEmpty? || err.PasswordWrong?
    requires s.switchUuid.None?
    ensures var r := Refused(s, err);
            Prompts(ReplyTo(sha, admin, r, hash, o)) <==>
            !Offered(s.shared) && o.preset == [] && s.config == [] && o.personal == [] && o.builtIn == []
    ensures var next := Hashed(sha, Refused(s, err), hash, o);
            next.password == [] || next.origin in {SharedBook, Preset, Stored, PersonalBook, BuiltIn}
    ensures Hashed(sha, Refused(s, err), hash, o).password ==
            Hashed(sha, s.(password := [], origin := Nowhere, source := Undefined), hash, o).password
  {
    FirstOfSix(sha, Refused(s, err), o, hash.salt);
    FirstOfSix(sha, s.(password := [], origin := Nowhere, source := Undefined), o, hash.salt);
  }

  /** Other errors leave the last password in use: it is sent again unless a shared entry was clicked. */
  lemma {:induction false} OtherErrorsKeep(sha: Hasher, s: Session, err: LoginError, hash: Hash, o: Offers)
    requires !err.PasswordEmpty? && !err.PasswordWrong? && s.password != [] && !Offered(s.shared)
    ensures Hashed(sha, Refused(s, err), hash, o).password == s.password
  {
    FirstOfSix(sha, s, o, hash.salt);
  }

  /** Logging in from the dialogue without typing uses the last password, or the stored one; it never
      changes whether the password is remembered. */
  lemma {:induction false} UntypedLogin(sha: Hasher, s: Session)
    ensures var t := LoggedInFromUi(sha, s, [], true);
            && LoggedInFromUi(sha, s, [], false) == t && t.remember == s.remember
            && (s.password != [] ==> t == s)
            && (s.password == [] ==> t.password == s.config)
            && (s.password == [] && s.config != [] ==> t.origin == Stored && t.source == Undefined)
  {
  }

  /** A session opened with another's token takes over its password, its source and its id. */
  lemma {:induction false} TokenCarries(s: Session, uuid: Option<Bytes>, shared: Option<Bytes>, random: nat,
                                        stored: Bytes)
    requires s.sessionId > 0
    ensures TokenOf(s).Some? <==> s.password != []
    ensures TokenOf(s).Some? ==>
              var t := Opened(NEW, uuid, shared, TokenOf(s), s.origin, random, stored);
              t.password == s.password && t.source == s.source && t.origin == s.origin && t.sessionId == s.sessionId &&
              TokenOf(t) == TokenOf(s)
  {
  }

  /** A password from the personal address book is stored at login, ticked or not. */
  lemma {:induction false} PersonalIsStored(sha: Hasher, s: Session, hash: Hash, o: Offers, stored: StoredPassword)
    requires s.switchUuid.None? && !Offered(s.shared) && s.password == [] && o.preset == [] && s.config == []
    requires o.personal != []
    ensures StoredAfter(sha, Hashed(sha, s, hash, o), stored).password == o.personal
  {
    FirstOfSix(sha, s, o, hash.salt);
  }

  /** Without "remember" the store keeps exactly a password that is still the one from the personal
      address book. */
  lemma {:induction false} NotRemembered(sha: Hasher, s: Session, stored: StoredPassword)
    requires !s.remember
    ensures StoredAfter(sha, s, stored) ==
            if s.password != [] && s.source == PersonalAb(s.password) then StoredPassword(s.password, s.origin)
            else StoredPassword([], Nowhere)
  {
  }

  /** The order of the six sources, one after the other. */
  lemma {:induction false} OrderOfSources(sha: Hasher, s: Session, hash: Hash, o: Offers)
    requires s.switchUuid.None?
    ensures var t, last := Hashed(sha, s, hash, o), s.password != [];
            && (Offered(s.shared) ==>
                  t.origin == SharedBook && t.source == SharedAb(s.shared.value) &&
                  t.password == sha(s.shared.value + hash.salt))
            && (!Offered(s.shared) && last ==> t.password == s.password && t.source == s.source)
            && (!Offered(s.shared) && !last ==>
                  && (o.preset != [] ==>
                        t.origin == Preset && t.source == Undefined && t.password == sha(o.preset + hash.salt))
                  && (o.preset == [] && s.config != [] ==>
                        t.origin == Stored && t.source == Undefined && t.password == s.config)
                  && (o.preset == [] && s.config == [] && o.personal != [] ==>
                        t.origin == PersonalBook && t.source == PersonalAb(o.personal) && t.password == o.personal)
                  && (o.preset == [] && s.config == [] && o.personal == [] && o.builtIn != [] ==>
                        t.origin == BuiltIn && t.source == SharedAb(o.builtIn) &&
                        t.password == sha(o.builtIn + hash.salt)))
  {
    FirstOfSix(sha, s, o, hash.salt);
  }
}

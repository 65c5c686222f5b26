/** Runs of any number of sessions with one peer: a shared password is never stored. */
module LoginRuns {
  import opened Wrappers
  import opened Login

  type Issued = (ConnToken, Origin)

  /** The sessions with one peer, its stored password, and the connection tokens handed out so far. */
  datatype World = World(sessions: map<nat, Session>, stored: StoredPassword, tokens: set<Issued>)

  datatype Event =
    | Open(i: nat, uuid: Option<Bytes>, shared: Option<Bytes>, token: Option<Issued>, random: nat)
    | Export(i: nat)
    | GotHash(i: nat, hash: Hash, offers: Offers)
    | GotError(i: nat, err: LoginError)
    | FromUi(i: nat, typed: Bytes, remember: bool)
    | GotPeerInfo(i: nat)

  /** What may happen: a switch request together with a token, and which salt the peer sends; every
      salt when none is given. */
  datatype Policy = Policy(switchWithToken: bool, salt: Option<Bytes>) {
    predicate Admits(salt: Bytes) {
      this.salt.None? || this.salt.value == salt
    }
  }

  /** Tokens come from other sessions, and the peer sends its hash before it accepts a login. */
  predicate CanStep(p: Policy, w: World, e: Event) {
    match e
    case Open(i, uuid, _, token, _) =>
      i !in w.sessions && (token.Some? ==> token.value in w.tokens && (uuid.Some? ==> p.switchWithToken))
    case GotHash(i, hash, _) => i in w.sessions && p.Admits(hash.salt)
    case GotPeerInfo(i) => i in w.sessions && p.Admits(w.sessions[i].hash.salt)
    case _ => e.i in w.sessions
  }

  function Step(sha: Hasher, p: Policy, w: World, e: Event): World
    requires CanStep(p, w, e)
  {
    match e
    case Open(i, uuid, shared, token, random) =>
      var s := if token.Some?
               then Opened(NEW, uuid, shared, Some(token.value.0), token.value.1, random, w.stored.password)
               else Opened(NEW, uuid, shared, None, Nowhere, random, w.stored.password);
      w.(sessions := w.sessions[i := s])
    case Export(i) =>
      var token := TokenOf(w.sessions[i]);
      if token.None? then w else w.(tokens := w.tokens + {(token.value, w.sessions[i].origin)})
    case GotHash(i, hash, offers) => w.(sessions := w.sessions[i := Hashed(sha, w.sessions[i], hash, offers)])
    case GotError(i, err) => w.(sessions := w.sessions[i := Refused(w.sessions[i], err)])
    case FromUi(i, typed, remember) =>
      w.(sessions := w.sessions[i := LoggedInFromUi(sha, w.sessions[i], typed, remember)])
    case GotPeerInfo(i) =>
      var stored := StoredAfter(sha, w.sessions[i], w.stored);
      w.(stored := stored, sessions := w.sessions[i := w.sessions[i].(config := stored.password)])
  }

  ghost predicate IsRun(sha: Hasher, p: Policy, w: World, events: seq<Event>, last: World)
    decreases |events|
  {
    if events == [] then w == last
    else CanStep(p, w, events[0]) && IsRun(sha, p, Step(sha, p, w, events[0]), events[1..], last)
  }

  /** No session, no token, and a password of its own in the store. */
  predicate Fresh(w: World) {
    w.sessions == map[] && w.tokens == {} && !w.stored.origin.IsShared()
  }

  // ----- the invariant

  /** A shared password always travels with the text it was made from, whatever salt is admitted. */
  ghost predicate Labelled(sha: Hasher, p: Policy, password: Bytes, source: PasswordSource, origin: Origin) {
    origin.IsShared() ==>
      source.SharedAb? && source.text != [] && forall salt :: p.Admits(salt) ==> password == sha(source.text + salt)
  }

  /** The salts that are admitted make no difference. */
  ghost predicate SaltsAgree(sha: Hasher, p: Policy) {
    forall text: Bytes, a, b :: text != [] && p.Admits(a) && p.Admits(b) ==> sha(text + a) == sha(text + b)
  }

  ghost predicate SafeSession(sha: Hasher, p: Policy, s: Session) {
    Labelled(sha, p, s.password, s.source, s.origin) && (s.switchUuid.Some? ==> !s.origin.IsShared())
  }

  ghost predicate Safe(sha: Hasher, p: Policy, w: World) {
    && !w.stored.origin.IsShared()
    && (forall i :: i in w.sessions ==> SafeSession(sha, p, w.sessions[i]))
    && (forall t :: t in w.tokens ==> Labelled(sha, p, t.0.password, t.0.source, t.1))
  }

  lemma {:induction false} HashedIsSafe(sha: Hasher, p: Policy, s: Session, hash: Hash, o: Offers)
    requires SaltsAgree(sha, p) && SafeSession(sha, p, s) && p.Admits(hash.salt)
    ensures SafeSession(sha, p, Hashed(sha, s, hash, o))
  {
    FirstOfSix(sha, s, o, hash.salt);
  }

  /** A labelled password is recognised when the peer accepts the login, and left out of the store. */
  lemma {:induction false} StoredIsNotShared(sha: Hasher, p: Policy, s: Session, stored: StoredPassword)
    requires SafeSession(sha, p, s) && p.Admits(s.hash.salt) && !stored.origin.IsShared()
    ensures !StoredAfter(sha, s, stored).origin.IsShared()
  {
    if s.origin.IsShared() {
      assert |s.password| == 32;
      assert s.source.IsSharedAb(sha, s.password, s.hash);
    }
  }

  lemma {:induction false} StepIsSafe(sha: Hasher, p: Policy, w: World, e: Event)
    requires Safe(sha, p, w) && CanStep(p, w, e) && !p.switchWithToken && SaltsAgree(sha, p)
    ensures Safe(sha, p, Step(sha, p, w, e))
  {
    match e
    case Open(i, uuid, shared, token, random) =>
    case Export(i) =>
    case GotHash(i, hash, offers) => HashedIsSafe(sha, p, w.sessions[i], hash, offers);
    case GotError(i, err) =>
    case FromUi(i, typed, remember) =>
    case GotPeerInfo(i) => StoredIsNotShared(sha, p, w.sessions[i], w.stored);
  }

  lemma {:induction false} RunIsSafe(sha: Hasher, p: Policy, w: World, events: seq<Event>, last: World)
    requires Safe(sha, p, w) && IsRun(sha, p, w, events, last) && !p.switchWithToken && SaltsAgree(sha, p)
    ensures Safe(sha, p, last)
    decreases |events|
  {
    if events != [] {
      StepIsSafe(sha, p, w, events[0]);
      RunIsSafe(sha, p, Step(sha, p, w, events[0]), events[1..], last);
    }
  }

  /** With a salt that stays and no switch request beside a token: the stored password is never one
      from a shared address book nor the built-in default. */
  lemma {:induction false} SharedNeverStored(sha: Hasher, salt: Bytes, w: World, events: seq<Event>, last: World)
    requires Fresh(w) && IsRun(sha, Policy(false, Some(salt)), w, events, last)
    ensures !last.stored.origin.IsShared()
  {
    RunIsSafe(sha, Policy(false, Some(salt)), w, events, last);
  }

  // ----- the two ways out

  const NO_OFFERS := Offers([], false, [], [])
  const TRUSTED := Offers([], true, [], [])

  /** No session yet, and some other password in the store. */
  function Before(): World {
    World(map[], StoredPassword([1], Typed), {})
  }

  lemma {:induction false} RunFront(sha: Hasher, p: Policy, w: World, e: Event, rest: seq<Event>, last: World)
    requires CanStep(p, w, e) && IsRun(sha, p, Step(sha, p, w, e), rest, last)
    ensures IsRun(sha, p, w, [e] + rest, last)
  {
    assert ([e] + rest)[1..] == rest;
  }

  /** Clicking a shared entry. */
  lemma {:induction false} Clicked(sha: Hasher, s: Session, text: Bytes, hash: Hash)
    requires s.shared == Some(text) && text != [] && s.switchUuid.None?
    ensures Hashed(sha, s, hash, NO_OFFERS) ==
            s.(hash := hash, shared := None, password := sha(text + hash.salt), source := SharedAb(text),
               origin := SharedBook)
  {
    FirstOfSix(sha, s, NO_OFFERS, hash.salt);
  }

  /** A shared entry is clicked, its token opens a second session with a trusted switch request, and
      the peer accepts that session. */
  lemma {:induction false} SwitchRun(sha: Hasher, p: Policy, salt: Bytes, text: Bytes)
    returns (events: seq<Event>, last: World)
    requires p.switchWithToken && p.Admits(salt) && text != []
    ensures IsRun(sha, p, Before(), events, last) && last.stored == StoredPassword(sha(text + salt), SharedBook)
  {
    var hash, w0 := Hash(salt, []), Before();
    var e1 := Open(0, None, Some(text), None, 1);
    var w1 := Step(sha, p, w0, e1);
    var e2 := GotHash(0, hash, NO_OFFERS);
    var w2 := Step(sha, p, w1, e2);
    Clicked(sha, w1.sessions[0], text, hash);
    var token := ConnToken(sha(text + salt), SharedAb(text), w2.sessions[0].sessionId);
    assert |token.password| == 32 && TokenOf(w2.sessions[0]) == Some(token);
    var e3 := Export(0);
    var w3 := Step(sha, p, w2, e3);
    var e4 := Open(1, Some([]), None, Some((token, SharedBook)), 1);
    var w4 := Step(sha, p, w3, e4);
    var e5 := GotHash(1, hash, TRUSTED);
    var w5 := Step(sha, p, w4, e5);
    var e6 := GotPeerInfo(1);
    last := Step(sha, p, w5, e6);
    events := [];
    RunFront(sha, p, w5, e6, events, last);
    events := [e6] + events;
    RunFront(sha, p, w4, e5, events, last);
    events := [e5] + events;
    RunFront(sha, p, w3, e4, events, last);
    events := [e4] + events;
    RunFront(sha, p, w2, e3, events, last);
    events := [e3] + events;
    RunFront(sha, p, w1, e2, events, last);
    events := [e2] + events;
    RunFront(sha, p, w0, e1, events, last);
    events := [e1] + events;
  }

  /** A shared entry is clicked, the peer sends two salts, and accepts. */
  lemma {:induction false} SaltRun(sha: Hasher, p: Policy, a: Bytes, b: Bytes, text: Bytes)
    returns (events: seq<Event>, last: World)
    requires p.Admits(a) && p.Admits(b) && text != [] && sha(text + a) != sha(text + b)
    ensures IsRun(sha, p, Before(), events, last) && last.stored == StoredPassword(sha(text + a), SharedBook)
  {
    var w0 := Before();
    var e1 := Open(0, None, Some(text), None, 1);
    var w1 := Step(sha, p, w0, e1);
    var e2 := GotHash(0, Hash(a, []), NO_OFFERS);
    var w2 := Step(sha, p, w1, e2);
    Clicked(sha, w1.sessions[0], text, Hash(a, []));
    assert |sha(text + a)| == 32;
    var e3 := GotHash(0, Hash(b, []), NO_OFFERS);
    var w3 := Step(sha, p, w2, e3);
    FirstOfSix(sha, w2.sessions[0], NO_OFFERS, b);
    var e4 := GotPeerInfo(0);
    last := Step(sha, p, w3, e4);
    events := [];
    RunFront(sha, p, w3, e4, events, last);
    events := [e4] + events;
    RunFront(sha, p, w2, e3, events, last);
    events := [e3] + events;
    RunFront(sha, p, w1, e2, events, last);
    events := [e2] + events;
    RunFront(sha, p, w0, e1, events, last);
    events := [e1] + events;
  }

  ghost predicate AllRunsSafe(sha: Hasher, p: Policy) {
    forall w, events, last :: Fresh(w) && IsRun(sha, p, w, events, last) ==> !last.stored.origin.IsShared()
  }

  /** No run stores a shared password exactly when no switch request comes with a token and no two
      admitted salts tell a text apart. */
  lemma {:induction false} SafeExactly(sha: Hasher, p: Policy)
    ensures AllRunsSafe(sha, p) <==> !p.switchWithToken && SaltsAgree(sha, p)
  {
    if !p.switchWithToken && SaltsAgree(sha, p) {
      forall w, events, last | Fresh(w) && IsRun(sha, p, w, events, last)
        ensures !last.stored.origin.IsShared()
      {
        RunIsSafe(sha, p, w, events, last);
      }
    }
    if p.switchWithToken {
      var events, last := SwitchRun(sha, p, if p.salt.Some? then p.salt.value else [], [0]);
      assert Fresh(Before());
    }
    if !SaltsAgree(sha, p) {
      var text, a, b :| text != [] && p.Admits(a) && p.Admits(b) && sha(text + a) != sha(text + b);
      var events, last := SaltRun(sha, p, a, b, text);
      assert Fresh(Before());
    }
  }

  // ----- what is meant to be stored

  /** A password typed with "remember" ticked is stored once the peer accepts it, and the next session
      logs in with it when nothing else is offered; typed without, it makes the store forget. */
  lemma {:induction false} TypedPasswordRemembered(sha: Hasher, s: Session, typed: Bytes, remember: bool,
                                                   stored: StoredPassword, random: nat, hash: Hash, o: Offers)
    requires typed != [] && o.preset == []
    ensures var after := StoredAfter(sha, LoggedInFromUi(sha, s, typed, remember), stored);
            var next := Hashed(sha, Opened(NEW, None, None, None, Nowhere, random, after.password), hash, o);
            if remember then
              after.password == sha(typed + s.hash.salt) && next.password == after.password && next.remember
            else
              after.password == [] && !next.remember
  {
    var after := StoredAfter(sha, LoggedInFromUi(sha, s, typed, remember), stored);
    FirstOfSix(sha, Opened(NEW, None, None, None, Nowhere, random, after.password), o, hash.salt);
    assert |sha(typed + s.hash.salt)| == 32;
  }

  // ----- what one login lets out

  /** A trusted switch request drops the label and keeps the token's password, and the login stores it. */
  lemma {:induction false} SwitchWithToken(sha: Hasher, uuid: Bytes, token: ConnToken, origin: Origin, random: nat,
                                           hash: Hash, o: Offers, stored: StoredPassword)
    requires o.trusted && !stored.origin.IsShared()
    ensures var s := Hashed(sha, Opened(NEW, Some(uuid), None, Some(token), origin, random, stored.password), hash, o);
            StoredAfter(sha, s, stored).origin.IsShared() <==>
            origin.IsShared() && stored.password != [] && token.password != [] && token.password != stored.password
  {
  }

  /** The label is checked against the salt of the last hash message: whatever session holds a labelled
      shared password, the next hash message and login store it exactly when it is kept as the last
      password, the store remembers another one, and the salt does not give it any more. */
  lemma {:induction false} SaltChange(sha: Hasher, s: Session, text: Bytes, hash: Hash, o: Offers,
                                      stored: StoredPassword)
    requires s.origin.IsShared() && s.source == SharedAb(text) && s.switchUuid.None?
    requires !stored.origin.IsShared()
    ensures StoredAfter(sha, Hashed(sha, s, hash, o), stored).origin.IsShared() <==>
            s.remember && (s.shared.None? || s.shared.value == []) &&
            s.password != [] && s.password != stored.password && sha(text + hash.salt) != s.password
  {
    FirstOfSix(sha, s, o, hash.salt);
  }

  // ----- refused passwords

  /** Of the events that set or refuse the password of session `i`, the last refuses it. */
  predicate LastRefused(events: seq<Event>, i: nat)
    decreases |events|
  {
    events != [] &&
    match events[|events| - 1]
    case GotError(j, err) =>
      (j == i && (err.PasswordWrong? || err.PasswordEmpty?)) || LastRefused(events[..|events| - 1], i)
    case GotHash(j, _, _) => j != i && LastRefused(events[..|events| - 1], i)
    case FromUi(j, _, _) => j != i && LastRefused(events[..|events| - 1], i)
    case _ => LastRefused(events[..|events| - 1], i)
  }

  lemma {:induction false} RunSplit(sha: Hasher, p: Policy, w: World, events: seq<Event>, last: World)
    returns (before: World)
    requires events != [] && IsRun(sha, p, w, events, last)
    ensures IsRun(sha, p, w, events[..|events| - 1], before)
    ensures CanStep(p, before, events[|events| - 1]) && Step(sha, p, before, events[|events| - 1]) == last
    decreases |events|
  {
    if |events| == 1 {
      before := w;
      assert events[..0] == [] && events[1..] == [];
    } else {
      before := RunSplit(sha, p, Step(sha, p, w, events[0]), events[1..], last);
      assert events[1..][..|events| - 2] == events[..|events| - 1][1..];
    }
  }

  /** No password is in use, nor handed out in a token, once it has been refused, until another one is
      chosen or typed. */
  lemma {:induction false} RefusedIsGone(sha: Hasher, p: Policy, w: World, events: seq<Event>, last: World, i: nat)
    requires w.sessions == map[] && IsRun(sha, p, w, events, last) && LastRefused(events, i)
    ensures i in last.sessions && last.sessions[i].password == [] && TokenOf(last.sessions[i]).None?
    decreases |events|
  {
    var before := RunSplit(sha, p, w, events, last);
    if LastRefused(events[..|events| - 1], i) {
      RefusedIsGone(sha, p, w, events[..|events| - 1], before, i);
    }
  }
}

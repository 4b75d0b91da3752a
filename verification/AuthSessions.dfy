/**
 * Sessions and second factors (internal/auth/session.go and the handlers of
 * internal/auth/server.go). Handlers are atomic; the password check, the HMAC and
 * the validity of a code are left open.
 */
module AuthSessions {
  import opened Wrappers

  // ---------------------------------------------------------------- signed session ids

  /** The hex HMAC of a session id under the server's secret. */
  type Mac = string -> string

  function FirstDot(s: string): (i: nat)
    ensures i <= |s| && '.' !in s[..i] && (i < |s| ==> s[i] == '.')
  {
    if s == [] || s[0] == '.' then 0
    else
      var i := 1 + FirstDot(s[1..]);
      assert s[..i] == [s[0]] + s[1..][..i - 1];
      i
  }

  function SignSessionID(mac: Mac, id: string): string {
    id + "." + mac(id)
  }

  /** The id before the first dot, if the rest is its signature. */
  function VerifySessionID(mac: Mac, signed: string): Option<string> {
    var i := FirstDot(signed);
    if i < |signed| && signed == SignSessionID(mac, signed[..i]) then Some(signed[..i]) else None
  }

  /** getSessionIDFromCookie: an empty id counts as no cookie. */
  function SessionIdOf(mac: Mac, cookie: string): Option<string> {
    var id := VerifySessionID(mac, cookie);
    if id == Some("") then None else id
  }

  lemma SignedIdVerifiesIff(mac: Mac, id: string, cookie: string)
    ensures SessionIdOf(mac, cookie) == Some(id) <==> id != "" && '.' !in id && cookie == SignSessionID(mac, id)
  {
    if '.' !in id && cookie == SignSessionID(mac, id) {
      FirstDotAfter(id, mac(id));
    }
  }

  lemma {:induction false} FirstDotAfter(id: string, rest: string)
    requires '.' !in id
    ensures FirstDot(id + "." + rest) == |id| && (id + "." + rest)[..|id|] == id
  {
    if id != [] {
      assert (id + "." + rest)[1..] == id[1..] + "." + rest;
      FirstDotAfter(id[1..], rest);
    }
  }

  // ---------------------------------------------------------------- the stored state and its steps

  datatype Session = Session(username: string, authLevel: nat, totpVerified: bool)

  /** The keys in the store: sessions by id, and TOTP secrets by key. */
  datatype Store = Store(sessions: map<string, Session>, totp: map<string, string>)

  function ActiveKey(username: string): string {
    "packalares:totp:" + username
  }

  function PendingKey(username: string): string {
    "packalares:totp:pending:" + username
  }

  /** What a key holds; "" when it is missing. */
  function Held(totp: map<string, string>, key: string): string {
    if key in totp then totp[key] else ""
  }

  const EMPTY := Store(map[], map[])

  /** Whether a code is valid for a secret at a time. */
  type Totp = (string, string, int) -> bool

  datatype Config = Config(mac: Mac, totp: Totp)

  /**
   * A call together with what the outside decides: the password check, the new id, the time, whether a write
   * succeeds.
   */
  datatype Event =
    | FirstFactor(username: string, passwordOk: bool, newId: string, stored: bool)
    | SecondFactor(cookie: string, code: string, now: int, stored: bool)
    | EnrolStart(cookie: string, secret: string, stored: bool)
    | EnrolConfirm(cookie: string, code: string, now: int, stored: bool, cleared: bool)
    | EnrolRemove(cookie: string, stored: bool, cleared: bool)
    | Logout(cookie: string, stored: bool)
    | Revoke(cookie: string, target: string, victim: Option<string>, stored: bool)
    | SessionExpired(id: string)
    | PendingExpired(username: string)

  /** The session behind a cookie. */
  function SessionOf(c: Config, s: Store, cookie: string): Option<(string, Session)> {
    match SessionIdOf(c.mac, cookie)
    case None => None
    case Some(id) => if id in s.sessions then Some((id, s.sessions[id])) else None
  }

  function SignedIn(c: Config, s: Store, cookie: string): Option<(string, Session)> {
    match SessionOf(c, s, cookie)
    case None => None
    case Some(found) => if found.1.authLevel < 1 then None else Some(found)
  }

  function SecretOf(s: Store, username: string): string {
    Held(s.totp, ActiveKey(username))
  }

  predicate HasSecret(s: Store, username: string) {
    SecretOf(s, username) != ""
  }

  /** A valid code for the user's active secret arrives on this session. */
  predicate CodeAccepted(c: Config, s: Store, e: Event, id: string) {
    && e.SecondFactor? && e.stored
    && SignedIn(c, s, e.cookie).Some? && SignedIn(c, s, e.cookie).value.0 == id
    && var user := s.sessions[id].username; HasSecret(s, user) && c.totp(SecretOf(s, user), e.code, e.now)
  }

  /** Session `id` is one the revoke request names: by its full id or by the abbreviation shown to the user. */
  predicate IsTarget(s: Store, username: string, target: string, id: string) {
    id in s.sessions && s.sessions[id].username == username
    && (id == target || (|id| >= 8 && target == id[..8] + "..."))
  }

  /** The pending secret is deleted last, as far as that succeeds. */
  function Cleared(totp: map<string, string>, username: string, cleared: bool): map<string, string> {
    if cleared then totp - {PendingKey(username)} else totp
  }

  function Next(c: Config, s: Store, e: Event): Store {
    match e
    case FirstFactor(username, passwordOk, newId, stored) =>
      if passwordOk && stored then s.(sessions := s.sessions[newId := Session(username, 1, false)]) else s
    case SecondFactor(cookie, code, now, stored) =>
      (match SignedIn(c, s, cookie)
       case None => s
       case Some((id, session)) =>
         if HasSecret(s, session.username) && c.totp(SecretOf(s, session.username), code, now) && stored
         then s.(sessions := s.sessions[id := session.(authLevel := 2, totpVerified := true)])
         else s)
    case EnrolStart(cookie, secret, stored) =>
      (match SignedIn(c, s, cookie)
       case None => s
       case Some((id, session)) => if stored then s.(totp := s.totp[PendingKey(session.username) := secret]) else s)
    case EnrolConfirm(cookie, code, now, stored, cleared) =>
      (match SignedIn(c, s, cookie)
       case None => s
       case Some((id, session)) =>
         var user := session.username;
         var pending := Held(s.totp, PendingKey(user));
         if code == "" || pending == "" || !c.totp(pending, code, now) || !stored then s
         else s.(totp := Cleared(s.totp[ActiveKey(user) := pending], user, cleared)))
    case EnrolRemove(cookie, stored, cleared) =>
      (match SignedIn(c, s, cookie)
       case None => s
       case Some((id, session)) =>
         var user := session.username;
         if !stored then s
         else s.(totp := Cleared(s.totp - {ActiveKey(user)}, user, cleared)))
    case Logout(cookie, stored) =>
      (match SessionIdOf(c.mac, cookie)
       case None => s
       case Some(id) => if stored then s.(sessions := s.sessions - {id}) else s)
    case Revoke(cookie, target, victim, stored) =>
      (match SignedIn(c, s, cookie)
       case None => s
       case Some(_) => if victim.Some? && stored then s.(sessions := s.sessions - {victim.value}) else s)
    case SessionExpired(id) => s.(sessions := s.sessions - {id})
    case PendingExpired(username) => s.(totp := s.totp - {PendingKey(username)})
  }

  /** handleVerify: a public host, or a session strong enough for its user. */
  predicate Verified(c: Config, s: Store, hostIsPublic: bool, cookie: string) {
    hostIsPublic
    || match SignedIn(c, s, cookie)
       case None => false
       case Some((id, session)) => !(HasSecret(s, session.username) && session.authLevel < 2)
  }

  /** A revoke deletes one of the sessions it names, if there is one. */
  predicate VictimFits(c: Config, s: Store, e: Event) {
    e.Revoke? && SignedIn(c, s, e.cookie).Some? ==>
      var user := SignedIn(c, s, e.cookie).value.1.username;
      match e.victim
      case Some(id) => IsTarget(s, user, e.target, id)
      case None => forall id :: id in s.sessions ==> !IsTarget(s, user, e.target, id)
  }

  // ---------------------------------------------------------------- runs

  /** Event `i` is a login that created `id`. */
  predicate Creates(e: Event, id: string) {
    e.FirstFactor? && e.passwordOk && e.stored && e.newId == id
  }

  ghost predicate Run(c: Config, stores: seq<Store>, events: seq<Event>) {
    && |stores| == |events| + 1 && stores[0] == EMPTY
    && (forall i :: 0 <= i < |events| ==>
         VictimFits(c, stores[i], events[i]) && stores[i + 1] == Next(c, stores[i], events[i]))
    // session ids are fresh
    && (forall i, j :: 0 <= i < j < |events| && events[i].FirstFactor? && events[j].FirstFactor? ==>
         events[i].newId != events[j].newId)
  }

  ghost predicate PasswordChecked(events: seq<Event>, n: int, id: string, username: string) {
    exists i :: 0 <= i < n <= |events| && Creates(events[i], id) && events[i].username == username
  }

  ghost predicate CodeSeen(c: Config, stores: seq<Store>, events: seq<Event>, n: int, id: string) {
    exists i :: 0 <= i < n <= |events| && i < |stores| && CodeAccepted(c, stores[i], events[i], id)
  }

  /** What is true of one stored session. */
  ghost predicate SessionInv(c: Config, stores: seq<Store>, events: seq<Event>, n: int, id: string)
    requires 0 <= n < |stores| && id in stores[n].sessions
  {
    var session := stores[n].sessions[id];
    && PasswordChecked(events, n, id, session.username)
    && (session.authLevel == 1 || session.authLevel == 2)
    && (session.authLevel == 2 <==> CodeSeen(c, stores, events, n, id))
  }

  /** A stored session was created by some login before. */
  lemma {:induction false} StoredWasCreated(c: Config, stores: seq<Store>, events: seq<Event>, n: nat, id: string)
    requires Run(c, stores, events) && n <= |events| && id in stores[n].sessions
    ensures exists i :: 0 <= i < n && Creates(events[i], id)
  {
    if n > 0 {
      if id in stores[n - 1].sessions {
        StoredWasCreated(c, stores, events, n - 1, id);
      } else {
        assert stores[n] == Next(c, stores[n - 1], events[n - 1]);
        assert Creates(events[n - 1], id);
      }
    }
  }

  /** On the step that creates an id no code has been seen on it. */
  lemma FreshHasNoCode(c: Config, stores: seq<Store>, events: seq<Event>, n: nat, id: string)
    requires Run(c, stores, events) && n < |events| && Creates(events[n], id)
    ensures !CodeSeen(c, stores, events, n, id) && id !in stores[n].sessions
  {
    if id in stores[n].sessions {
      StoredWasCreated(c, stores, events, n, id);
    }
    forall i | 0 <= i < n ensures !CodeAccepted(c, stores[i], events[i], id) {
      if id in stores[i].sessions { StoredWasCreated(c, stores, events, i, id); }
    }
  }

  lemma SessionStep(c: Config, stores: seq<Store>, events: seq<Event>, n: nat, id: string)
    requires Run(c, stores, events) && n < |events| && id in stores[n + 1].sessions
    requires id in stores[n].sessions ==> SessionInv(c, stores, events, n, id)
    ensures SessionInv(c, stores, events, n + 1, id)
  {
    var e, s, s' := events[n], stores[n], stores[n + 1];
    assert s' == Next(c, s, e);
    assert CodeSeen(c, stores, events, n + 1, id) <==> CodeSeen(c, stores, events, n, id) || CodeAccepted(c, s, e, id);
    if Creates(e, id) {
      FreshHasNoCode(c, stores, events, n, id);
    } else {
      assert id in s.sessions && s'.sessions[id].username == s.sessions[id].username;
      var i :| 0 <= i < n && Creates(events[i], id) && events[i].username == s.sessions[id].username;
      assert s'.sessions[id].authLevel == if CodeAccepted(c, s, e, id) then 2 else s.sessions[id].authLevel;
    }
  }

  /**
   * In every run, every stored session came from a password check, and is at level 2 exactly when a code was
   * accepted on it.
   */
  lemma {:induction false} SessionsEarned(c: Config, stores: seq<Store>, events: seq<Event>, n: nat, id: string)
    requires Run(c, stores, events) && n <= |events| && id in stores[n].sessions
    ensures SessionInv(c, stores, events, n, id)
  {
    if n > 0 {
      if id in stores[n - 1].sessions { SessionsEarned(c, stores, events, n - 1, id); }
      SessionStep(c, stores, events, n - 1, id);
    }
  }

  /** A session that is gone stays gone: logged out, revoked or expired, its id is never stored again. */
  lemma {:induction false} GoneForever(c: Config, stores: seq<Store>, events: seq<Event>, m: nat, n: nat, id: string)
    requires Run(c, stores, events) && m < n <= |events|
    requires id in stores[m].sessions && id !in stores[m + 1].sessions
    ensures id !in stores[n].sessions
    decreases n
  {
    if n > m + 1 {
      GoneForever(c, stores, events, m, n - 1, id);
      assert stores[n] == Next(c, stores[n - 1], events[n - 1]);
      StoredWasCreated(c, stores, events, m, id);
      var i :| 0 <= i < m && Creates(events[i], id);
      assert !Creates(events[n - 1], id);
    }
  }

  /** After a logout whose delete went through, the cookie is refused for good. */
  lemma LoggedOutIsRefused(c: Config, stores: seq<Store>, events: seq<Event>, m: nat, n: nat, id: string)
    requires Run(c, stores, events) && m < n <= |events|
    requires events[m].Logout? && events[m].stored && SessionIdOf(c.mac, events[m].cookie) == Some(id)
             && id in stores[m].sessions
    ensures !Verified(c, stores[n], false, events[m].cookie)
  {
    assert stores[m + 1] == Next(c, stores[m], events[m]);
    GoneForever(c, stores, events, m, n, id);
  }

  /** By its full id or by its first eight characters and three dots. */
  predicate Names(target: string, id: string) {
    target == id || (|id| >= 8 && target == id[..8] + "...")
  }

  /**
   * A revoke whose delete goes through ends a session of the user who asks that the request names, for good; and
   * there is one to end whenever the user has such a session.
   */
  lemma RevokedIsRefused(c: Config, stores: seq<Store>, events: seq<Event>, m: nat, n: nat, user: string)
    requires Run(c, stores, events) && m < n <= |events| && events[m].Revoke? && events[m].stored
    requires IsSessionOf(c, stores[m], events[m].cookie, user)
    ensures events[m].victim.Some? <==>
      exists id :: id in stores[m].sessions && stores[m].sessions[id].username == user && Names(events[m].target, id)
    ensures events[m].victim.Some? ==>
      var id := events[m].victim.value;
      && id in stores[m].sessions && stores[m].sessions[id].username == user && Names(events[m].target, id)
      && forall cookie :: SessionIdOf(c.mac, cookie) == Some(id) ==> !Verified(c, stores[n], false, cookie)
  {
    assert stores[m + 1] == Next(c, stores[m], events[m]) && VictimFits(c, stores[m], events[m]);
    forall id ensures IsTarget(stores[m], user, events[m].target, id) <==>
        id in stores[m].sessions && stores[m].sessions[id].username == user && Names(events[m].target, id) { }
    if events[m].victim.Some? { GoneForever(c, stores, events, m, n, events[m].victim.value); }
  }

  /** A revoke leaves every session but the one it ends, and so every session of another user. */
  lemma OthersNotRevoked(c: Config, s: Store, e: Event, user: string, id: string)
    requires e.Revoke? && VictimFits(c, s, e) && IsSessionOf(c, s, e.cookie, user) && id in s.sessions
    requires s.sessions[id].username != user || !Names(e.target, id) || !e.stored
    ensures id in Next(c, s, e).sessions && Next(c, s, e).sessions[id] == s.sessions[id]
  {
  }

  /** Without a session a revoke changes nothing. */
  lemma StrangerRevokesNothing(c: Config, s: Store, e: Event)
    requires e.Revoke? && forall user :: !IsSessionOf(c, s, e.cookie, user)
    ensures Next(c, s, e) == s
  {
    if SignedIn(c, s, e.cookie).Some? {
      assert IsSessionOf(c, s, e.cookie, SignedIn(c, s, e.cookie).value.1.username);
    }
  }

  /** The secret is what stands under the user's own key. */
  lemma SecretIsUnderKey(s: Store, user: string)
    ensures HasSecret(s, user) <==> "packalares:totp:" + user in s.totp && s.totp["packalares:totp:" + user] != ""
    ensures HasSecret(s, user) ==> SecretOf(s, user) == s.totp["packalares:totp:" + user]
  {
  }

  /**
   * Who gets through on a host that is not public: exactly the holders of a signed cookie of a stored session,
   * whose user's password was checked for it and on which, if that user has a secret now, a code was accepted.
   */
  lemma VerifiedIff(c: Config, stores: seq<Store>, events: seq<Event>, n: nat, cookie: string)
    requires Run(c, stores, events) && n <= |events|
    ensures Verified(c, stores[n], false, cookie) <==>
      exists id :: id in stores[n].sessions && id != "" && '.' !in id && cookie == SignSessionID(c.mac, id)
                   && PasswordChecked(events, n, id, stores[n].sessions[id].username)
                   && (HasSecret(stores[n], stores[n].sessions[id].username) ==> CodeSeen(c, stores, events, n, id))
  {
    forall id | id in stores[n].sessions
      ensures SessionInv(c, stores, events, n, id)
      ensures SessionIdOf(c.mac, cookie) == Some(id) <==> id != "" && '.' !in id && cookie == SignSessionID(c.mac, id)
    {
      SessionsEarned(c, stores, events, n, id);
      SignedIdVerifiesIff(c.mac, id, cookie);
    }
    if SignedIn(c, stores[n], cookie).Some? {
      var id := SignedIn(c, stores[n], cookie).value.0;
      assert SessionInv(c, stores, events, n, id);
    }
  }

  // ---------------------------------------------------------------- who changes a secret

  predicate IsSessionOf(c: Config, s: Store, cookie: string, user: string) {
    SignedIn(c, s, cookie).Some? && SignedIn(c, s, cookie).value.1.username == user
  }

  /** A valid code for the user's pending secret arrives on one of its sessions, and the store takes the secret over. */
  predicate Confirms(c: Config, s: Store, e: Event, user: string) {
    && e.EnrolConfirm? && e.stored && IsSessionOf(c, s, e.cookie, user)
    && var pending := Held(s.totp, PendingKey(user)); e.code != "" && pending != "" && c.totp(pending, e.code, e.now)
  }

  predicate Removes(c: Config, s: Store, e: Event, user: string) {
    e.EnrolRemove? && e.stored && IsSessionOf(c, s, e.cookie, user)
  }

  /** A session of the user removes its secret, or confirms another one. */
  predicate ChangesOwn(c: Config, s: Store, e: Event, user: string) {
    Removes(c, s, e, user) || (Confirms(c, s, e, user) && Held(s.totp, PendingKey(user)) != SecretOf(s, user))
  }

  /** The pending secret of another user is stored under the very key of this one's secret, and changes or goes. */
  predicate ChangesAlias(c: Config, s: Store, e: Event, user: string, other: string) {
    && ActiveKey(user) == PendingKey(other)
    && match e
       case EnrolStart(cookie, secret, stored) => stored && IsSessionOf(c, s, cookie, other)
           && secret != SecretOf(s, user)
       case EnrolConfirm(_, _, _, _, cleared) => cleared && Confirms(c, s, e, other)
       case EnrolRemove(_, _, cleared) => cleared && Removes(c, s, e, other)
       case PendingExpired(username) => username == other
       case _ => false
  }

  lemma KeysAlias(user: string, other: string)
    ensures ActiveKey(user) == ActiveKey(other) <==> user == other
    ensures PendingKey(user) == PendingKey(other) <==> user == other
    ensures ActiveKey(user) == PendingKey(other) <==> user == "pending:" + other
    ensures ActiveKey(user) != PendingKey(user)
  {
    var prefix := "packalares:totp:";
    assert PendingKey(other) == prefix + ("pending:" + other);
    assert ActiveKey(user)[|prefix|..] == user && ActiveKey(other)[|prefix|..] == other;
    assert PendingKey(other)[|prefix|..] == "pending:" + other;
    assert PendingKey(user)[|prefix| + 8..] == user && PendingKey(other)[|prefix| + 8..] == other;
    assert |PendingKey(user)| == |ActiveKey(user)| + 8;
  }

  /**
   * An active secret changes exactly when a session of its user removes it or confirms another one, whatever the
   * level of that session, or when the user is called "pending:" and another user's name, and that one's pending
   * secret changes or goes.
   */
  lemma SecretChangesIff(c: Config, s: Store, e: Event, user: string)
    requires HasSecret(s, user)
    ensures SecretOf(Next(c, s, e), user) != SecretOf(s, user)
            <==> ChangesOwn(c, s, e, user) || exists other :: ChangesAlias(c, s, e, user, other)
  {
    if e.EnrolStart? || e.EnrolConfirm? || e.EnrolRemove? {
      if SignedIn(c, s, e.cookie).Some? {
        var v := SignedIn(c, s, e.cookie).value.1.username;
        KeysAlias(user, v);
        ChangedByOwnOrAlias(c, s, e, user, v);
      }
    } else if e.PendingExpired? {
      KeysAlias(user, e.username);
      assert ActiveKey(user) == PendingKey(e.username) ==> ChangesAlias(c, s, e, user, e.username);
    }
  }

  lemma ChangedByOwnOrAlias(c: Config, s: Store, e: Event, user: string, v: string)
    requires HasSecret(s, user) && (e.EnrolStart? || e.EnrolConfirm? || e.EnrolRemove?)
             && IsSessionOf(c, s, e.cookie, v)
    ensures SecretOf(Next(c, s, e), user) != SecretOf(s, user)
            <==> ChangesOwn(c, s, e, user) || ChangesAlias(c, s, e, user, v)
  {
    KeysAlias(user, v);
  }

  /** For all other names only the user's own sessions do. */
  lemma NoAlias(c: Config, s: Store, e: Event, user: string, other: string)
    requires !("pending:" <= user)
    ensures !ChangesAlias(c, s, e, user, other)
  {
    KeysAlias(user, other);
  }

  /**
   * In every run, then, a secret of such a name is changed only from a session of a login with the password of
   * its user.
   */
  lemma ChangedByOwner(c: Config, stores: seq<Store>, events: seq<Event>, n: nat, user: string)
    requires Run(c, stores, events) && n < |events| && HasSecret(stores[n], user) && !("pending:" <= user)
    requires SecretOf(stores[n + 1], user) != SecretOf(stores[n], user)
    ensures events[n].EnrolRemove? || events[n].EnrolConfirm?
    ensures exists id :: SessionIdOf(c.mac, events[n].cookie) == Some(id) && PasswordChecked(events, n, id, user)
  {
    SecretChangesIff(c, stores[n], events[n], user);
    forall other { NoAlias(c, stores[n], events[n], user, other); }
    var id := SignedIn(c, stores[n], events[n].cookie).value.0;
    SessionsEarned(c, stores, events, n, id);
  }

  /**
   * A second factor on that session is not asked for: one that does not pass for want of a code passes once it
   * has removed the secret.
   */
  lemma LevelOneRemoves(c: Config, s: Store, cookie: string, cleared: bool)
    requires SignedIn(c, s, cookie).Some? && !Verified(c, s, false, cookie)
    ensures SignedIn(c, s, cookie).value.1.authLevel == 1
    ensures Verified(c, Next(c, s, EnrolRemove(cookie, true, cleared)), false, cookie)
  {
  }

  // A run in which that happens: a login, an enrolment, a second login, and a removal from there.

  const CONFIG := Config(id => "mac", (secret, code, now) => true)
  const COOKIE_1 := SignSessionID(CONFIG.mac, "1")
  const COOKIE_2 := SignSessionID(CONFIG.mac, "2")

  const LIFTING: seq<Event> := [
    FirstFactor("u", true, "1", true),
    EnrolStart(COOKIE_1, "secret", true),
    EnrolConfirm(COOKIE_1, "123456", 0, true, true),
    FirstFactor("u", true, "2", true),
    EnrolRemove(COOKIE_2, true, true)
  ]

  const ONE: map<string, Session> := map["1" := Session("u", 1, false)]
  const TWO: map<string, Session> := map["1" := Session("u", 1, false), "2" := Session("u", 1, false)]
  const PENDING: map<string, string> := map[PendingKey("u") := "secret"]
  const ACTIVE: map<string, string> := map[ActiveKey("u") := "secret"]

  const LIFTED: seq<Store> := [EMPTY, Store(ONE, map[]), Store(ONE, PENDING), Store(ONE, ACTIVE),
      Store(TWO, ACTIVE), Store(TWO, map[])]

  lemma CookiesAreIds()
    ensures SessionIdOf(CONFIG.mac, COOKIE_1) == Some("1") && SessionIdOf(CONFIG.mac, COOKIE_2) == Some("2")
  {
    SignedIdVerifiesIff(CONFIG.mac, "1", COOKIE_1);
    SignedIdVerifiesIff(CONFIG.mac, "2", COOKIE_2);
  }

  lemma LiftingEnrols()
    ensures Next(CONFIG, LIFTED[0], LIFTING[0]) == LIFTED[1] && Next(CONFIG, LIFTED[1], LIFTING[1]) == LIFTED[2]
    ensures Next(CONFIG, LIFTED[2], LIFTING[2]) == LIFTED[3]
  {
    CookiesAreIds();
    KeysAlias("u", "u");
    assert PENDING[ActiveKey("u") := "secret"] - {PendingKey("u")} == ACTIVE;
  }

  lemma LiftingRemoves()
    ensures Next(CONFIG, LIFTED[3], LIFTING[3]) == LIFTED[4] && Next(CONFIG, LIFTED[4], LIFTING[4]) == LIFTED[5]
  {
    CookiesAreIds();
    assert ACTIVE - {ActiveKey("u")} - {PendingKey("u")} == map[];
  }

  lemma LiftingIsRun()
    ensures Run(CONFIG, LIFTED, LIFTING)
  {
    LiftingEnrols();
    LiftingRemoves();
  }

  lemma SecondLoginLifts()
    ensures Run(CONFIG, LIFTED, LIFTING)
    ensures !Verified(CONFIG, LIFTED[4], false, COOKIE_2) && Verified(CONFIG, LIFTED[5], false, COOKIE_2)
  {
    LiftingIsRun();
    CookiesAreIds();
  }

  // ---------------------------------------------------------------- the handlers

  class Server {
    const cfg: Config
    var sessions: map<string, Session>
    var totp: map<string, string>

    function Now(): Store
      reads this
    {
      Store(sessions, totp)
    }

    constructor (cfg: Config)
      ensures this.cfg == cfg && Now() == EMPTY
    {
      this.cfg, sessions, totp := cfg, map[], map[];
    }

    method GetSession(cookie: string) returns (found: Option<(string, Session)>)
      ensures found == SessionOf(cfg, Now(), cookie)
    {
      var id := SessionIdOf(cfg.mac, cookie);
      if id.None? || id.value !in sessions { return None; }
      found := Some((id.value, sessions[id.value]));
    }

    method HandleVerify(hostIsPublic: bool, cookie: string) returns (ok: bool)
      ensures ok == Verified(cfg, Now(), hostIsPublic, cookie)
    {
      if hostIsPublic { return true; }
      var found := GetSession(cookie);
      if found.None? { return false; }
      var session := found.value.1;
      if session.authLevel < 1 { return false; }
      var hasTOTP := Held(totp, ActiveKey(session.username)) != "";
      ok := !(hasTOTP && session.authLevel < 2);
    }

    method HandleFirstFactor(username: string, passwordOk: bool, newId: string, stored: bool) returns (ok: bool)
      modifies this`sessions
      ensures Now() == Next(cfg, old(Now()), FirstFactor(username, passwordOk, newId, stored))
      ensures ok == (passwordOk && stored)
    {
      if !passwordOk || !stored { return false; }
      sessions := sessions[newId := Session(username, 1, false)];
      ok := true;
    }

    method HandleSecondFactorTOTP(cookie: string, code: string, now: int, stored: bool) returns (ok: bool)
      modifies this`sessions
      ensures Now() == Next(cfg, old(Now()), SecondFactor(cookie, code, now, stored))
      ensures ok && stored <==> exists id :: CodeAccepted(cfg, old(Now()), SecondFactor(cookie, code, now, stored), id)
    {
      var found := GetSession(cookie);
      if found.None? || found.value.1.authLevel < 1 { return false; }
      var (id, session) := found.value;
      var secret := Held(totp, ActiveKey(session.username));
      if secret == "" { return false; }
      if !cfg.totp(secret, code, now) { return false; }
      assert stored ==> CodeAccepted(cfg, old(Now()), SecondFactor(cookie, code, now, stored), id);
      if stored { sessions := sessions[id := session.(authLevel := 2, totpVerified := true)]; }
      ok := true;
    }

    method HandleTOTPStart(cookie: string, secret: string, stored: bool)
      modifies this`totp
      ensures Now() == Next(cfg, old(Now()), EnrolStart(cookie, secret, stored))
    {
      var found := GetSession(cookie);
      if found.None? || found.value.1.authLevel < 1 || !stored { return; }
      totp := totp[PendingKey(found.value.1.username) := secret];
    }

    method HandleTOTPConfirm(cookie: string, code: string, now: int, stored: bool, cleared: bool)
      modifies this`totp
      ensures Now() == Next(cfg, old(Now()), EnrolConfirm(cookie, code, now, stored, cleared))
    {
      var found := GetSession(cookie);
      if found.None? || found.value.1.authLevel < 1 || code == "" { return; }
      var user := found.value.1.username;
      var pending := Held(totp, PendingKey(user));
      if pending == "" { return; }
      if !cfg.totp(pending, code, now) || !stored { return; }
      totp := totp[ActiveKey(user) := pending];
      if cleared { totp := totp - {PendingKey(user)}; }
    }

    method HandleTOTPRemove(cookie: string, stored: bool, cleared: bool)
      modifies this`totp
      ensures Now() == Next(cfg, old(Now()), EnrolRemove(cookie, stored, cleared))
    {
      var found := GetSession(cookie);
      if found.None? || found.value.1.authLevel < 1 || !stored { return; }
      var user := found.value.1.username;
      totp := totp - {ActiveKey(user)};
      if cleared { totp := totp - {PendingKey(user)}; }
    }

    method HandleLogout(cookie: string, stored: bool)
      modifies this`sessions
      ensures Now() == Next(cfg, old(Now()), Logout(cookie, stored))
    {
      var id := SessionIdOf(cfg.mac, cookie);
      if id.Some? && stored { sessions := sessions - {id.value}; }
    }

    /** The DELETE branch of handleSessions: the first listed session that the request names. */
    method HandleRevoke(cookie: string, target: string, stored: bool) returns (victim: Option<string>)
      modifies this`sessions
      ensures VictimFits(cfg, old(Now()), Revoke(cookie, target, victim, stored))
      ensures Now() == Next(cfg, old(Now()), Revoke(cookie, target, victim, stored))
    {
      victim := None;
      var found := GetSession(cookie);
      if found.None? || found.value.1.authLevel < 1 { return; }
      var user := found.value.1.username;
      var todo := sessions.Keys;
      while todo != {}
        invariant todo <= sessions.Keys && sessions == old(sessions)
        invariant forall id :: id in sessions.Keys - todo ==> !IsTarget(Now(), user, target, id)
        decreases todo
      {
        var id :| id in todo;
        todo := todo - {id};
        if IsTarget(Now(), user, target, id) {
          victim := Some(id);
          if stored { sessions := sessions - {id}; }
          return;
        }
      }
    }
  }
}

/** Users, sessions and agent tokens: the real tables with their cascade, purge and final expiry, and the
    fake's dictionary of tokens that are only ever flagged. */
module Accounts {
  import opened Common
  import opened Iso
  import opened Ordering
  import opened Sorting

  type Id = string
  type Time = d: DateTime | ValidTime(d) witness DateTime(1, 1, 1, 0, 0, 0, 0)

  datatype Kind = Session | Agent

  datatype Token = Token(
    id: Id, name: string, kind: Kind, scope: string, user: Id,
    created: Time, lastUsed: Option<Time>, expires: Option<Time>, revoked: bool)

  /** An argon2 hash: it verifies the password it was made of; `settings` is its cost. */
  datatype Hash = Argon2(of: string, settings: nat)

  /** What the database holds for a secret; it determines the secret. */
  datatype Key = Sha256Hex(of: string)

  datatype User = User(username: string, hash: Hash)

  /** The two tables; the secret's digest is unique in `tokens`. */
  datatype Tables = Tables(users: map<Id, User>, tokens: map<Key, Token>)

  datatype FakeUser = FakeUser(username: string, password: string)

  datatype FakeState = FakeState(users: map<Id, FakeUser>, tokens: map<Id, Token>, secrets: map<string, Id>)

  // ---- calls ----

  datatype Action =
    | Logout
    | ChangePassword(current: string, new_: string)
    | CreateToken(name: string, scope: string, id: Id, secret: string)
    | RevokeToken(tokenId: Id)
    | ListTokens
    | TokenSelf
    | CreateUser(username: string, password: string, userId: Id)
    | DeleteUser(deleted: Id)
    | ListUsers
    | AnyRoute

  /** A sign-in, whose request may carry a bearer too; a request under a bearer; or a restart with its purge of
      dead sessions. Ids and secrets drawn at random come with the call. */
  datatype Call =
    | Login(sent: Option<string>, username: string, password: string, id: Id, secret: string)
    | Authed(bearer: Option<string>, action: Action)
    | Restart

  /** A call, the time it is made, and that time plus the session length. */
  datatype Timed = Timed(call: Call, now: Time, later: Time)

  datatype PublicToken = PublicToken(
    id: Id, name: string, kind: Kind, scope: string, username: string,
    created: Time, lastUsed: Option<Time>, expires: Option<Time>)

  datatype Reply =
    | Refused(status: int, code: string)
    | SignedIn(secret: string, until: Time, userId: Id)
    | Issued(token: PublicToken, secret: string)
    | Tokens(tokens: seq<PublicToken>)
    | Self(id: Id, name: string, kind: Kind, scope: string, username: string, expires: Option<Time>)
    | Users(users: seq<(Id, string)>)
    | UserMade(id: Id, username: string)
    | Done

  const UNAUTHORIZED := Refused(401, "unauthorized")
  const INVALID_CREDENTIALS := Refused(401, "invalid_credentials")
  const SESSION_REQUIRED := Refused(403, "session_required")
  const WRONG_PASSWORD := Refused(403, "wrong_password")
  const NO_TOKEN := Refused(404, "not_found")
  const NO_USER := Refused(404, "not_found")
  const USER_EXISTS := Refused(409, "user_exists")
  const LAST_USER := Refused(409, "last_user")

  /** The routes any token may call. */
  predicate AnyToken(action: Action) {
    action.TokenSelf? || action.AnyRoute?
  }

  predicate Expired(token: Token, now: Time) {
    token.expires.Some? && Instant(token.expires.value) <= Instant(now)
  }

  predicate Live(token: Token, now: Time) {
    !token.revoked && !Expired(token, now)
  }

  /** A secret that would be taken at the given time. */
  predicate Accepts(t: Tables, s: string, now: Time) {
    var k := Sha256Hex(s);
    k in t.tokens && Live(t.tokens[k], now) && t.tokens[k].user in t.users
  }

  /** Nothing is stored for the secret, or a revoked row. */
  predicate Dead(t: Tables, s: string) {
    Sha256Hex(s) in t.tokens ==> t.tokens[Sha256Hex(s)].revoked
  }

  function Touch(token: Token, now: Time, later: Time): Token {
    token.(lastUsed := Some(now), expires := if token.kind.Session? then Some(later) else token.expires)
  }

  function Public(token: Token, username: string): PublicToken {
    PublicToken(token.id, token.name, token.kind, token.scope, username, token.created, token.lastUsed, token.expires)
  }

  function NewSession(id: Id, user: Id, now: Time, later: Time): Token {
    Token(id, "session", Session, "remove_destructive", user, now, None, Some(later), false)
  }

  function NewAgent(id: Id, name: string, scope: string, user: Id, now: Time): Token {
    Token(id, name, Agent, scope, user, now, None, None, false)
  }

  ghost function Named(names: map<Id, string>, username: string): Option<Id> {
    if exists u :: u in names && names[u] == username
    then var u :| u in names && names[u] == username; Some(u) else None
  }

  // ---- the real backend ----

  function Names(users: map<Id, User>): map<Id, string> {
    map u | u in users :: users[u].username
  }

  /** `UPDATE tokens SET revoked_at = ? WHERE id = ?`. */
  function RevokeById(tokens: map<Key, Token>, id: Id): map<Key, Token> {
    map k | k in tokens :: if tokens[k].id == id then tokens[k].(revoked := true) else tokens[k]
  }

  function TouchById(tokens: map<Key, Token>, id: Id, now: Time, later: Time): map<Key, Token> {
    map k | k in tokens :: if tokens[k].id == id then Touch(tokens[k], now, later) else tokens[k]
  }

  function RevokeOthers(tokens: map<Key, Token>, user: Id, keep: Id): map<Key, Token> {
    map k | k in tokens ::
      if tokens[k].user == user && tokens[k].kind.Session? && tokens[k].id != keep
      then tokens[k].(revoked := true) else tokens[k]
  }

  /** `DELETE FROM users WHERE id = ?`, with the cascade. */
  function RemoveUser(t: Tables, user: Id): Tables {
    Tables(t.users - {user}, map k | k in t.tokens && t.tokens[k].user != user :: t.tokens[k])
  }

  /** The purge compares the stored text of the times. */
  predicate PurgedRow(token: Token, now: Time) {
    token.kind.Session? && (token.revoked || (token.expires.Some? && TextLe(Text(token.expires.value), Text(now))))
  }

  function Purge(t: Tables, now: Time): Tables {
    t.(tokens := map k | k in t.tokens && !PurgedRow(t.tokens[k], now) :: t.tokens[k])
  }

  /** `resolve_bearer`: an expired token is revoked, a live one touched. */
  function Resolve(t: Tables, bearer: Option<string>, now: Time, later: Time): (r: (Tables, Option<Token>))
    ensures r.1.Some? ==> r.1.value.user in r.0.users && r.0.users == t.users
  {
    if bearer.None? || Sha256Hex(bearer.value) !in t.tokens then (t, None)
    else
      var token := t.tokens[Sha256Hex(bearer.value)];
      if token.revoked then (t, None)
      else if Expired(token, now) then (t.(tokens := RevokeById(t.tokens, token.id)), None)
      else if token.user !in t.users then (t, None)
      else (t.(tokens := TouchById(t.tokens, token.id, now, later)), Some(Touch(token, now, later)))
  }

  function Verify(hash: Hash, password: string): bool {
    hash.of == password
  }

  /** A hash made under lower settings is made again. */
  function Rehashed(t: Tables, user: Id, settings: nat): Tables
    requires user in t.users
  {
    var u := t.users[user];
    if u.hash.settings < settings then t.(users := t.users[user := u.(hash := Argon2(u.hash.of, settings))]) else t
  }

  ghost function SignIn(t: Tables, c: Call, now: Time, later: Time, settings: nat): (Tables, Reply)
    requires c.Login?
  {
    match Named(Names(t.users), c.username)
    case None => (t, INVALID_CREDENTIALS)
    case Some(user) =>
      if !Verify(t.users[user].hash, c.password) then (t, INVALID_CREDENTIALS)
      else
        var t' := Rehashed(t, user, settings);
        (t'.(tokens := t'.tokens[Sha256Hex(c.secret) := NewSession(c.id, user, now, later)]),
         SignedIn(c.secret, later, user))
  }

  predicate AgentById(tokens: map<Key, Token>, id: Id) {
    exists k :: k in tokens && tokens[k].id == id && tokens[k].kind.Agent? && !tokens[k].revoked
  }

  /** The live agent tokens, joined with their owners. */
  function AgentTokens(t: Tables): set<PublicToken> {
    set k | k in t.tokens && t.tokens[k].kind.Agent? && !t.tokens[k].revoked && t.tokens[k].user in t.users
      :: Public(t.tokens[k], t.users[t.tokens[k].user].username)
  }

  /** `ORDER BY tokens.created_at, tokens.id`, on the stored text. */
  predicate TextBefore(a: PublicToken, b: PublicToken) {
    Less(Text(a.created), Text(b.created)) || (Text(a.created) == Text(b.created) && Less(a.id, b.id))
  }

  function Listed(names: map<Id, string>): set<(Id, string)> {
    set u | u in names :: (u, names[u])
  }

  /** `ORDER BY username`, as the fake sorts them too. */
  predicate NameBefore(a: (Id, string), b: (Id, string)) {
    Less(a.1, b.1)
  }

  ghost function Perform(t: Tables, caller: Token, action: Action, now: Time, settings: nat): (Tables, Reply)
    requires caller.user in t.users
  {
    match action
    case Logout => (t.(tokens := RevokeById(t.tokens, caller.id)), Done)
    case ChangePassword(current, new_) =>
      if !Verify(t.users[caller.user].hash, current) then (t, WRONG_PASSWORD)
      else
        var t' := Rehashed(t, caller.user, settings);
        (Tables(t'.users[caller.user := t'.users[caller.user].(hash := Argon2(new_, settings))],
                RevokeOthers(t'.tokens, caller.user, caller.id)), Done)
    case CreateToken(name, scope, id, secret) =>
      var token := NewAgent(id, name, scope, caller.user, now);
      (t.(tokens := t.tokens[Sha256Hex(secret) := token]),
       Issued(Public(token, t.users[caller.user].username), secret))
    case RevokeToken(id) =>
      if AgentById(t.tokens, id) then (t.(tokens := RevokeById(t.tokens, id)), Done) else (t, NO_TOKEN)
    case ListTokens =>
      (t, Tokens(InOrder(AgentTokens(t), TextBefore)))
    case TokenSelf =>
      (t, Self(caller.id, caller.name, caller.kind, caller.scope, t.users[caller.user].username, caller.expires))
    case CreateUser(username, password, id) =>
      if Named(Names(t.users), username).Some? then (t, USER_EXISTS)
      else (t.(users := t.users[id := User(username, Argon2(password, settings))]), UserMade(id, username))
    case DeleteUser(id) =>
      if id !in t.users then (t, NO_USER)
      else if |t.users| <= 1 then (t, LAST_USER)
      else (RemoveUser(t, id), Done)
    case ListUsers => (t, Users(InOrder(Listed(Names(t.users)), NameBefore)))
    case AnyRoute => (t, Done)
  }

  /** One call on the real backend. */
  ghost function Step(t: Tables, c: Timed, settings: nat): (Tables, Reply) {
    match c.call
    case Restart => (Purge(t, c.now), Done)
    case Login(_, _, _, _, _) => SignIn(t, c.call, c.now, c.later, settings)
    case Authed(bearer, action) =>
      match Resolve(t, bearer, c.now, c.later)
      case (t', None) => (t', UNAUTHORIZED)
      case (t', Some(caller)) =>
        if caller.kind.Agent? && !AnyToken(action) then (t', SESSION_REQUIRED)
        else Perform(t', caller, action, c.now, settings)
  }

  // ---- the fake ----

  function FakeNames(users: map<Id, FakeUser>): map<Id, string> {
    map u | u in users :: users[u].username
  }

  function FakeResolve(f: FakeState, bearer: Option<string>, now: Time, later: Time): (FakeState, Option<Token>) {
    if bearer.None? || bearer.value !in f.secrets || f.secrets[bearer.value] !in f.tokens then (f, None)
    else
      var token := f.tokens[f.secrets[bearer.value]];
      if !Live(token, now) then (f, None)
      else (f.(tokens := f.tokens[token.id := Touch(token, now, later)]), Some(Touch(token, now, later)))
  }

  function FakeStore(f: FakeState, token: Token, secret: string): FakeState {
    f.(tokens := f.tokens[token.id := token], secrets := f.secrets[secret := token.id])
  }

  ghost function FakeSignIn(f: FakeState, c: Call, now: Time, later: Time): (FakeState, Reply)
    requires c.Login?
  {
    match Named(FakeNames(f.users), c.username)
    case None => (f, INVALID_CREDENTIALS)
    case Some(user) =>
      if f.users[user].password != c.password then (f, INVALID_CREDENTIALS)
      else (FakeStore(f, NewSession(c.id, user, now, later), c.secret), SignedIn(c.secret, later, user))
  }

  function FakeRevoke(f: FakeState, id: Id): FakeState
    requires id in f.tokens
  {
    f.(tokens := f.tokens[id := f.tokens[id].(revoked := true)])
  }

  /** A password change signs out the user's other sessions. */
  function FakeSignOut(f: FakeState, user: Id, keep: Id): FakeState {
    f.(tokens := map i | i in f.tokens ::
         if f.tokens[i].user == user && f.tokens[i].kind.Session? && f.tokens[i].id != keep
         then f.tokens[i].(revoked := true) else f.tokens[i])
  }

  /** Every token of a removed account is flagged. */
  function FakeRemoveUser(f: FakeState, user: Id): FakeState {
    f.(users := f.users - {user},
       tokens := map i | i in f.tokens ::
         if f.tokens[i].user == user then f.tokens[i].(revoked := true) else f.tokens[i])
  }

  function FakeAgentTokens(f: FakeState): set<PublicToken> {
    set i | i in f.tokens && f.tokens[i].kind.Agent? && !f.tokens[i].revoked && f.tokens[i].user in f.users
      :: Public(f.tokens[i], f.users[f.tokens[i].user].username)
  }

  /** `sorted(..., key=lambda t: (t.created_at, t.id))`, on the times. */
  predicate TimeBefore(a: PublicToken, b: PublicToken) {
    Instant(a.created) < Instant(b.created) || (Instant(a.created) == Instant(b.created) && Less(a.id, b.id))
  }

  ghost function FakePerform(f: FakeState, caller: Token, action: Action, now: Time): (FakeState, Reply)
    requires caller.user in f.users && caller.id in f.tokens
  {
    match action
    case Logout => (FakeRevoke(f, caller.id), Done)
    case ChangePassword(current, new_) =>
      if f.users[caller.user].password != current then (f, WRONG_PASSWORD)
      else
        (FakeSignOut(f.(users := f.users[caller.user := f.users[caller.user].(password := new_)]),
                     caller.user, caller.id),
         Done)
    case CreateToken(name, scope, id, secret) =>
      var token := NewAgent(id, name, scope, caller.user, now);
      (FakeStore(f, token, secret), Issued(Public(token, f.users[caller.user].username), secret))
    case RevokeToken(id) =>
      if id !in f.tokens || f.tokens[id].kind.Session? || f.tokens[id].revoked then (f, NO_TOKEN)
      else (FakeRevoke(f, id), Done)
    case ListTokens =>
      (f, Tokens(InOrder(FakeAgentTokens(f), TimeBefore)))
    case TokenSelf =>
      (f, Self(caller.id, caller.name, caller.kind, caller.scope, f.users[caller.user].username, caller.expires))
    case CreateUser(username, password, id) =>
      if Named(FakeNames(f.users), username).Some? then (f, USER_EXISTS)
      else (f.(users := f.users[id := FakeUser(username, password)]), UserMade(id, username))
    case DeleteUser(id) =>
      if id !in f.users then (f, NO_USER)
      else if |f.users| == 1 then (f, LAST_USER)
      else (FakeRemoveUser(f, id), Done)
    case ListUsers => (f, Users(InOrder(Listed(FakeNames(f.users)), NameBefore)))
    case AnyRoute => (f, Done)
  }

  /** One call on the fake; a restart is nothing to it. Its sign-in route resolves whatever bearer is sent along,
      as every route does. The last branch is never taken (`AccountsAgree.OwnersAreThere`). */
  ghost function FakeStep(f: FakeState, c: Timed): (FakeState, Reply) {
    match c.call
    case Restart => (f, Done)
    case Login(sent, _, _, _, _) => FakeSignIn(FakeResolve(f, sent, c.now, c.later).0, c.call, c.now, c.later)
    case Authed(bearer, action) =>
      match FakeResolve(f, bearer, c.now, c.later)
      case (f', None) => (f', UNAUTHORIZED)
      case (f', Some(caller)) =>
        if caller.kind.Agent? && !AnyToken(action) then (f', SESSION_REQUIRED)
        else if caller.user in f'.users && caller.id in f'.tokens then FakePerform(f', caller, action, c.now)
        else (f', UNAUTHORIZED)
  }
}

/** What the account calls of the real backend answer, told by the tables' rows with every field, status and code
    written out, and what later calls show of it. */
module AccountLaws {
  import opened Common
  import opened Iso
  import opened Ordering
  import opened Sorting
  import opened Accounts
  import opened AccountsAgree
  import opened Sessions
  import opened AccountsClass

  /** Ids and usernames are unique, every token has its owner, and only sessions end. */
  ghost predicate Sound(t: Tables) {
    TablesOk(t) && UniqueNames(t.users) && AllShaped(t)
  }

  /** The row a bearer presents, taken at that time. */
  ghost predicate Presented(t: Tables, s: string, row: Token, now: Time) {
    Sha256Hex(s) in t.tokens && row == t.tokens[Sha256Hex(s)] && !row.revoked && row.user in t.users
    && (row.expires.Some? ==> Instant(now) < Instant(row.expires.value))
  }

  /** The agent tokens that are not revoked, as they are to be shown. */
  ghost function Shown(t: Tables): set<PublicToken> {
    set k | k in t.tokens && t.tokens[k].kind.Agent? && !t.tokens[k].revoked && t.tokens[k].user in t.users
      :: ShownRow(t, t.tokens[k])
  }

  function ShownRow(t: Tables, row: Token): PublicToken
    requires row.user in t.users
  {
    PublicToken(row.id, row.name, row.kind, row.scope, t.users[row.user].username, row.created, row.lastUsed,
                row.expires)
  }

  // ---- replies ----

  /** Without a row that is taken the reply is 401. */
  lemma Unauthorized(t: Tables, bearer: Option<string>, action: Action, now: Time, later: Time, settings: nat)
    requires forall s, row :: bearer == Some(s) ==> !Presented(t, s, row, now)
    ensures Step(t, Timed(Authed(bearer, action), now, later), settings).1 == Refused(401, "unauthorized")
  {
    if bearer.Some? && Sha256Hex(bearer.value) in t.tokens {
      assert !Presented(t, bearer.value, t.tokens[Sha256Hex(bearer.value)], now);
    }
  }

  /** A row after a use: last used now, a session's end moved on. */
  function Used(row: Token, now: Time, later: Time): Token {
    row.(lastUsed := Some(now), expires := if row.kind.Session? then Some(later) else row.expires)
  }

  lemma Resolved(t: Tables, s: string, row: Token, now: Time, later: Time)
    requires TablesOk(t) && Presented(t, s, row, now)
    ensures var (t', caller) := Resolve(t, Some(s), now, later);
            var touched := Used(row, now, later);
            caller == Some(touched) && t'.users == t.users && t'.tokens == t.tokens[Sha256Hex(s) := touched]
  {
    var t' := Resolve(t, Some(s), now, later).0;
    var touched := Used(row, now, later);
    assert t'.tokens == t.tokens[Sha256Hex(s) := touched];
  }

  /** An agent token is shown itself, may use the routes for all, and is kept from the rest. */
  lemma AgentReplies(t: Tables, s: string, row: Token, action: Action, now: Time, later: Time, settings: nat)
    requires Sound(t) && Presented(t, s, row, now) && row.kind.Agent?
    ensures Step(t, Timed(Authed(Some(s), action), now, later), settings).1
            == match action
               case TokenSelf => Self(row.id, row.name, Agent, row.scope, t.users[row.user].username, None)
               case AnyRoute => Done
               case _ => Refused(403, "session_required")
  {
    Resolved(t, s, row, now, later);
  }

  /** What a session is answered, lists aside. */
  ghost function SessionReply(t: Tables, row: Token, action: Action, now: Time, later: Time): Reply
    requires row.user in t.users
  {
    var username := t.users[row.user].username;
    match action
    case ChangePassword(current, _) =>
      if t.users[row.user].hash.of == current then Done else Refused(403, "wrong_password")
    case CreateToken(name, scope, id, secret) =>
      Issued(PublicToken(id, name, Agent, scope, username, now, None, None), secret)
    case RevokeToken(id) =>
      if exists x :: x in Shown(t) && x.id == id then Done else Refused(404, "not_found")
    case TokenSelf => Self(row.id, row.name, Session, row.scope, username, Some(later))
    case CreateUser(name, _, id) =>
      if exists u :: u in t.users && t.users[u].username == name then Refused(409, "user_exists")
      else UserMade(id, name)
    case DeleteUser(id) =>
      if id !in t.users then Refused(404, "not_found")
      else if t.users.Keys == {id} then Refused(409, "last_user") else Done
    case _ => Done
  }

  lemma SessionReplies(t: Tables, s: string, row: Token, action: Action, now: Time, later: Time, settings: nat)
    requires Sound(t) && Presented(t, s, row, now) && row.kind.Session? && !action.ListTokens? && !action.ListUsers?
    ensures Step(t, Timed(Authed(Some(s), action), now, later), settings).1 == SessionReply(t, row, action, now, later)
  {
    Resolved(t, s, row, now, later);
    var (t', caller) := Resolve(t, Some(s), now, later);
    SessionSteps(t, s, row, action, now, later, settings);
    match action
    case RevokeToken(id) => AgentIsShown(t, t', s, row, id);
    case CreateUser(name, _, _) => NamedFinds(t.users, name);
    case DeleteUser(id) => if id in t.users { LastUser(t.users, id); }
    case _ =>
  }

  lemma SessionSteps(t: Tables, s: string, row: Token, action: Action, now: Time, later: Time, settings: nat)
    requires Presented(t, s, row, now) && row.kind.Session? && Resolve(t, Some(s), now, later).1.Some?
    requires Resolve(t, Some(s), now, later).1.value.kind.Session?
    ensures var (t', caller) := Resolve(t, Some(s), now, later);
            Step(t, Timed(Authed(Some(s), action), now, later), settings)
            == Perform(t', caller.value, action, now, settings)
  {
  }

  lemma AgentIsShown(t: Tables, t': Tables, s: string, row: Token, id: Id)
    requires Sound(t) && Sha256Hex(s) in t.tokens && row == t.tokens[Sha256Hex(s)] && row.kind.Session?
    requires exists touched: Token :: touched.kind.Session? && t'.tokens == t.tokens[Sha256Hex(s) := touched]
    ensures AgentById(t'.tokens, id) <==> exists x :: x in Shown(t) && x.id == id
  {
    if AgentById(t'.tokens, id) {
      var k :| k in t'.tokens && t'.tokens[k].id == id && t'.tokens[k].kind.Agent? && !t'.tokens[k].revoked;
      assert k in t.tokens && t.tokens[k] == t'.tokens[k];
      assert ShownRow(t, t.tokens[k]) in Shown(t);
    }
    if x :| x in Shown(t) && x.id == id {
      var k :| k in t.tokens && t.tokens[k].kind.Agent? && !t.tokens[k].revoked && t.tokens[k].user in t.users
               && x == ShownRow(t, t.tokens[k]);
      assert t'.tokens[k] == t.tokens[k];
    }
  }

  lemma LastUser(users: map<Id, User>, id: Id)
    requires id in users
    ensures |users| <= 1 <==> users.Keys == {id}
  {
    assert |users| == |users.Keys|;
    if |users| <= 1 {
      assert |users.Keys - {id}| == |users.Keys| - 1;
      assert users.Keys - {id} == {};
    }
  }

  /** A sign-in is answered with the secret, its end and the account of that name exactly if the password is right. */
  lemma SignInReplies(t: Tables, call: Call, now: Time, later: Time, settings: nat, user: Id)
    requires Sound(t) && call.Login?
    requires user in t.users && t.users[user].username == call.username
    ensures SignIn(t, call, now, later, settings).1
            == if t.users[user].hash.of == call.password then SignedIn(call.secret, later, user)
               else Refused(401, "invalid_credentials")
  {
    NamedFinds(t.users, call.username);
  }

  lemma UnknownSignIn(t: Tables, call: Call, now: Time, later: Time, settings: nat)
    requires call.Login? && forall u :: u in t.users ==> t.users[u].username != call.username
    ensures SignIn(t, call, now, later, settings) == (t, Refused(401, "invalid_credentials"))
  {
    NamedFinds(t.users, call.username);
  }

  // ---- lists ----

  ghost predicate ByCreation(a: PublicToken, b: PublicToken) {
    Instant(a.created) < Instant(b.created) || (a.created == b.created && Less(a.id, b.id))
  }

  lemma ShownIsListed(t: Tables)
    requires Sound(t)
    ensures AgentTokens(t) == Shown(t) && OneById(Shown(t))
  {
    forall k | k in t.tokens && t.tokens[k].kind.Agent? && !t.tokens[k].revoked && t.tokens[k].user in t.users
      ensures Public(t.tokens[k], t.users[t.tokens[k].user].username) == ShownRow(t, t.tokens[k])
    {
    }
  }

  lemma CreationOrder(a: PublicToken, b: PublicToken)
    ensures TextBefore(a, b) <==> ByCreation(a, b)
  {
    TextOrderIsTimeOrder(a.created, b.created);
    TextOrderIsTimeOrder(b.created, a.created);
    LessTotal(Text(a.created), Text(b.created));
  }

  /** A session lists every live agent token once, oldest first. */
  lemma TokensAreListed(t: Tables, s: string, row: Token, now: Time, later: Time, settings: nat)
    returns (list: seq<PublicToken>)
    requires Sound(t) && Presented(t, s, row, now) && row.kind.Session?
    ensures Step(t, Timed(Authed(Some(s), ListTokens), now, later), settings).1 == Tokens(list)
    ensures forall x :: x in list <==> x in Shown(t)
    ensures forall i, j :: 0 <= i < j < |list| ==> ByCreation(list[i], list[j])
  {
    Resolved(t, s, row, now, later);
    SessionSteps(t, s, row, ListTokens, now, later, settings);
    var t' := Resolve(t, Some(s), now, later).0;
    list := InOrder(AgentTokens(t'), TextBefore);
    SessionsDoNotShow(t, t', s);
    AgentTokensAfter(t, t', s, row, now, later);
    ShownIsListed(t);
    TextBeforeTotal(Shown(t));
    forall i, j | 0 <= i < j < |list| ensures ByCreation(list[i], list[j]) { CreationOrder(list[i], list[j]); }
  }

  lemma SessionsDoNotShow(t: Tables, t': Tables, s: string)
    requires t'.users == t.users && Sha256Hex(s) in t.tokens && t.tokens[Sha256Hex(s)].kind.Session?
    requires exists touched: Token :: touched.kind.Session? && t'.tokens == t.tokens[Sha256Hex(s) := touched]
    ensures Shown(t') == Shown(t)
  {
    forall k | k in t.tokens && t.tokens[k].kind.Agent? ensures k in t'.tokens && t'.tokens[k] == t.tokens[k] {
    }
    forall k | k in t'.tokens && t'.tokens[k].kind.Agent? ensures k in t.tokens && t'.tokens[k] == t.tokens[k] {
    }
    ShownBySameRows(t, t');
  }

  lemma ShownBySameRows(t: Tables, t': Tables)
    requires t'.users.Keys == t.users.Keys && forall u :: u in t.users ==> t'.users[u].username == t.users[u].username
    requires forall k :: k in t.tokens && t.tokens[k].kind.Agent? ==> k in t'.tokens && t'.tokens[k] == t.tokens[k]
    requires forall k :: k in t'.tokens && t'.tokens[k].kind.Agent? ==> k in t.tokens && t'.tokens[k] == t.tokens[k]
    ensures Shown(t') == Shown(t)
  {
    forall x | x in Shown(t) ensures x in Shown(t') {
      var k :| k in t.tokens && t.tokens[k].kind.Agent? && !t.tokens[k].revoked && t.tokens[k].user in t.users
               && x == ShownRow(t, t.tokens[k]);
      assert t'.tokens[k] == t.tokens[k] && ShownRow(t', t'.tokens[k]) == x;
    }
    forall x | x in Shown(t') ensures x in Shown(t) {
      var k :| k in t'.tokens && t'.tokens[k].kind.Agent? && !t'.tokens[k].revoked && t'.tokens[k].user in t'.users
               && x == ShownRow(t', t'.tokens[k]);
      assert t.tokens[k] == t'.tokens[k] && ShownRow(t, t.tokens[k]) == x;
    }
  }

  lemma AgentTokensAfter(t: Tables, t': Tables, s: string, row: Token, now: Time, later: Time)
    requires Sound(t) && Presented(t, s, row, now) && row.kind.Session? && t' == Resolve(t, Some(s), now, later).0
    ensures AgentTokens(t') == AgentTokens(t)
  {
    Resolved(t, s, row, now, later);
    SessionsDoNotShow(t, t', s);
    ShownIsListed(t);
    assert Sound(t') by { ResolveKeepsOk(t, Some(s), now, later); }
    ShownIsListed(t');
  }

  // ---- what calls change of the list ----

  /** A created token is in the list from then on, with what it was created with; nothing else changes there, and the
      session goes on. */
  lemma CreationShows(t: Tables, s: string, row: Token, name: string, scope: string, id: Id, secret: string,
                      now: Time, later: Time, settings: nat)
    requires Sound(t) && Presented(t, s, row, now) && row.kind.Session?
    requires NewId(t, id) && Sha256Hex(secret) !in t.tokens
    ensures var t' := Step(t, Timed(Authed(Some(s), CreateToken(name, scope, id, secret)), now, later), settings).0;
            var touched := row.(lastUsed := Some(now), expires := Some(later));
            var made := PublicToken(id, name, Agent, scope, t.users[row.user].username, now, None, None);
            Sound(t') && t'.users == t.users && Shown(t') == Shown(t) + {made}
            && forall n: Time :: Instant(n) < Instant(later) ==> Presented(t', s, touched, n)
  {
    Resolved(t, s, row, now, later);
    SessionSteps(t, s, row, CreateToken(name, scope, id, secret), now, later, settings);
    var t1 := Resolve(t, Some(s), now, later).0;
    ResolveKeepsOk(t, Some(s), now, later);
    SessionsDoNotShow(t, t1, s);
    IssueShows(t1, Token(id, name, Agent, scope, row.user, now, None, None, false), secret);
  }

  lemma IssueShows(t: Tables, token: Token, secret: string)
    requires Sound(t) && token.kind.Agent? && !token.revoked && token.user in t.users && token.expires.None?
    requires NewId(t, token.id) && Sha256Hex(secret) !in t.tokens
    ensures var t' := t.(tokens := t.tokens[Sha256Hex(secret) := token]);
            Sound(t') && Shown(t') == Shown(t) + {ShownRow(t, token)}
  {
    var t' := t.(tokens := t.tokens[Sha256Hex(secret) := token]);
    forall x | x in Shown(t) ensures x in Shown(t') {
      var k :| k in t.tokens && t.tokens[k].kind.Agent? && !t.tokens[k].revoked && t.tokens[k].user in t.users
               && x == ShownRow(t, t.tokens[k]);
      assert t'.tokens[k] == t.tokens[k];
    }
    assert t'.tokens[Sha256Hex(secret)] == token;
    forall x | x in Shown(t') ensures x in Shown(t) + {ShownRow(t, token)} {
      var k :| k in t'.tokens && t'.tokens[k].kind.Agent? && !t'.tokens[k].revoked && t'.tokens[k].user in t'.users
               && x == ShownRow(t', t'.tokens[k]);
      if k != Sha256Hex(secret) { assert t.tokens[k] == t'.tokens[k]; }
    }
  }

  /** Creating a token, then listing: the reply carries what was asked for, the account and the time, and the list holds
      exactly one entry of that id, the same. */
  lemma CreatedTokenIsListed(t: Tables, s: string, row: Token, name: string, scope: string, id: Id, secret: string,
                             now: Time, later: Time, then_: Time, later': Time, settings: nat)
    returns (list: seq<PublicToken>, i: nat)
    requires Sound(t) && Presented(t, s, row, now) && row.kind.Session? && Instant(then_) < Instant(later)
    requires NewId(t, id) && Sha256Hex(secret) !in t.tokens
    ensures var made := PublicToken(id, name, Agent, scope, t.users[row.user].username, now, None, None);
            var create := CreateToken(name, scope, id, secret);
            var (t', reply) := Step(t, Timed(Authed(Some(s), create), now, later), settings);
            reply == Issued(made, secret)
            && Step(t', Timed(Authed(Some(s), ListTokens), then_, later'), settings).1 == Tokens(list)
            && i < |list| && list[i] == made && forall j :: 0 <= j < |list| && list[j].id == id ==> j == i
  {
    var c := Timed(Authed(Some(s), CreateToken(name, scope, id, secret)), now, later);
    SessionReplies(t, s, row, c.call.action, now, later, settings);
    CreationShows(t, s, row, name, scope, id, secret, now, later, settings);
    var t' := Step(t, c, settings).0;
    var touched := row.(lastUsed := Some(now), expires := Some(later));
    list := TokensAreListed(t', s, touched, then_, later', settings);
    ShownIsListed(t');
    var made := PublicToken(id, name, Agent, scope, t.users[row.user].username, now, None, None);
    i :| 0 <= i < |list| && list[i] == made;
    forall j | 0 <= j < |list| && list[j].id == id ensures j == i {
      assert list[j] in Shown(t') && list[j] == list[i];
      LessTotal(id, id);
    }
  }

  lemma RevocationOfRows(t: Tables, id: Id)
    requires Sound(t)
    ensures Shown(t.(tokens := RevokeById(t.tokens, id))) == set x | x in Shown(t) && x.id != id
  {
    var t' := t.(tokens := RevokeById(t.tokens, id));
    forall x | x in Shown(t) && x.id != id ensures x in Shown(t') {
      var k :| k in t.tokens && t.tokens[k].kind.Agent? && !t.tokens[k].revoked && t.tokens[k].user in t.users
               && x == ShownRow(t, t.tokens[k]);
      assert t'.tokens[k] == t.tokens[k];
    }
    forall x | x in Shown(t') ensures x in Shown(t) && x.id != id {
      var k :| k in t'.tokens && t'.tokens[k].kind.Agent? && !t'.tokens[k].revoked && t'.tokens[k].user in t'.users
               && x == ShownRow(t', t'.tokens[k]);
      assert t.tokens[k] == t'.tokens[k];
    }
  }

  /** A revoked token is in the list no more; nothing else changes there. */
  lemma RevocationShows(t: Tables, s: string, row: Token, id: Id, now: Time, later: Time, settings: nat)
    requires Sound(t) && Presented(t, s, row, now) && row.kind.Session?
    ensures var t' := Step(t, Timed(Authed(Some(s), RevokeToken(id)), now, later), settings).0;
            Shown(t') == set x | x in Shown(t) && x.id != id
  {
    Resolved(t, s, row, now, later);
    SessionSteps(t, s, row, RevokeToken(id), now, later, settings);
    var t1 := Resolve(t, Some(s), now, later).0;
    ResolveKeepsOk(t, Some(s), now, later);
    SessionsDoNotShow(t, t1, s);
    AgentIsShown(t, t1, s, row, id);
    if AgentById(t1.tokens, id) {
      RevocationOfRows(t1, id);
    } else {
      assert forall x :: x in Shown(t) ==> x.id != id;
    }
  }

  /** With an account its tokens leave the list. */
  lemma RemovalShows(t: Tables, s: string, row: Token, user: Id, now: Time, later: Time, settings: nat)
    requires Sound(t) && Presented(t, s, row, now) && row.kind.Session? && user in t.users && t.users.Keys != {user}
    ensures var t' := Step(t, Timed(Authed(Some(s), DeleteUser(user)), now, later), settings).0;
            t'.users == t.users - {user}
            && Shown(t') == set x | x in Shown(t) && x.username != t.users[user].username
  {
    Resolved(t, s, row, now, later);
    SessionSteps(t, s, row, DeleteUser(user), now, later, settings);
    var t1 := Resolve(t, Some(s), now, later).0;
    LastUser(t.users, user);
    SessionsDoNotShow(t, t1, s);
    RemovalOfRows(t1, user);
  }

  lemma RemovalOfRows(t: Tables, user: Id)
    requires UniqueNames(t.users) && user in t.users
    ensures Shown(RemoveUser(t, user)) == set x | x in Shown(t) && x.username != t.users[user].username
  {
    var t' := RemoveUser(t, user);
    forall x | x in Shown(t) && x.username != t.users[user].username ensures x in Shown(t') {
      var k :| k in t.tokens && t.tokens[k].kind.Agent? && !t.tokens[k].revoked && t.tokens[k].user in t.users
               && x == ShownRow(t, t.tokens[k]);
      assert k in t'.tokens && t'.tokens[k] == t.tokens[k] && ShownRow(t', t'.tokens[k]) == x;
    }
    forall x | x in Shown(t') ensures x in Shown(t) && x.username != t.users[user].username {
      var k :| k in t'.tokens && t'.tokens[k].kind.Agent? && !t'.tokens[k].revoked && t'.tokens[k].user in t'.users
               && x == ShownRow(t', t'.tokens[k]);
      assert t.tokens[k] == t'.tokens[k] && ShownRow(t, t.tokens[k]) == x;
    }
  }

  /** A use of an agent token shows as its last use, and nothing else of the list changes. */
  lemma UseShows(t: Tables, s: string, row: Token, action: Action, now: Time, later: Time, settings: nat)
    requires Sound(t) && Presented(t, s, row, now) && row.kind.Agent?
    ensures var t' := Step(t, Timed(Authed(Some(s), action), now, later), settings).0;
            t'.users == t.users
            && Shown(t') == Shown(t) - {ShownRow(t, row)} + {ShownRow(t, row).(lastUsed := Some(now))}
  {
    Resolved(t, s, row, now, later);
    AgentSteps(t, s, row, action, now, later, settings);
    TouchShows(t, Resolve(t, Some(s), now, later).0, Sha256Hex(s), now);
  }

  /** An agent token's call changes what its resolution changes. */
  lemma AgentSteps(t: Tables, s: string, row: Token, action: Action, now: Time, later: Time, settings: nat)
    requires Resolve(t, Some(s), now, later).1.Some? && Resolve(t, Some(s), now, later).1.value.kind.Agent?
    ensures Step(t, Timed(Authed(Some(s), action), now, later), settings).0 == Resolve(t, Some(s), now, later).0
  {
  }

  lemma TouchShows(t: Tables, t': Tables, k: Key, now: Time)
    requires Sound(t) && k in t.tokens && t.tokens[k].kind.Agent? && !t.tokens[k].revoked && t'.users == t.users
    requires t'.tokens == t.tokens[k := t.tokens[k].(lastUsed := Some(now))]
    ensures Shown(t') == Shown(t) - {ShownRow(t, t.tokens[k])} + {ShownRow(t, t.tokens[k]).(lastUsed := Some(now))}
  {
    var was := ShownRow(t, t.tokens[k]);
    var is_ := was.(lastUsed := Some(now));
    assert ShownRow(t', t'.tokens[k]) == is_;
    forall x | x in Shown(t) && x != was ensures x in Shown(t') {
      var j :| j in t.tokens && t.tokens[j].kind.Agent? && !t.tokens[j].revoked && t.tokens[j].user in t.users
               && x == ShownRow(t, t.tokens[j]);
      assert j != k && t'.tokens[j] == t.tokens[j];
    }
    forall x | x in Shown(t') && x != is_ ensures x in Shown(t) && x != was {
      var j :| j in t'.tokens && t'.tokens[j].kind.Agent? && !t'.tokens[j].revoked && t'.tokens[j].user in t'.users
               && x == ShownRow(t', t'.tokens[j]);
      assert j != k && t.tokens[j] == t'.tokens[j];
    }
  }

  predicate LeavesTokens(action: Action) {
    !action.CreateToken? && !action.RevokeToken? && !action.DeleteUser?
  }

  /** Everything else a session does leaves the list as it is. */
  lemma OthersShowNothing(t: Tables, s: string, row: Token, action: Action, now: Time, later: Time, settings: nat)
    requires Sound(t) && Presented(t, s, row, now) && row.kind.Session? && LeavesTokens(action)
    requires action.CreateUser? ==> action.userId !in t.users
    ensures Shown(Step(t, Timed(Authed(Some(s), action), now, later), settings).0) == Shown(t)
  {
    Resolved(t, s, row, now, later);
    SessionSteps(t, s, row, action, now, later, settings);
    var (t1, caller) := Resolve(t, Some(s), now, later);
    ResolveKeepsOk(t, Some(s), now, later);
    SessionsDoNotShow(t, t1, s);
    ActionsShowNothing(t1, s, caller.value, action, now, settings);
  }

  lemma ActionsShowNothing(t: Tables, s: string, caller: Token, action: Action, now: Time, settings: nat)
    requires Sound(t) && Sha256Hex(s) in t.tokens && caller == t.tokens[Sha256Hex(s)] && caller.kind.Session?
    requires caller.user in t.users && LeavesTokens(action) && (action.CreateUser? ==> action.userId !in t.users)
    ensures Shown(Perform(t, caller, action, now, settings).0) == Shown(t)
  {
    var t' := Perform(t, caller, action, now, settings).0;
    if action.CreateUser? {
      NewUserShowsNothing(t, t', action.userId);
    } else {
      AgentRowsStay(t, s, caller, action, now, settings);
      ShownBySameRows(t, t');
    }
  }

  lemma AgentRowsStay(t: Tables, s: string, caller: Token, action: Action, now: Time, settings: nat)
    requires Sound(t) && Sha256Hex(s) in t.tokens && caller == t.tokens[Sha256Hex(s)] && caller.kind.Session?
    requires caller.user in t.users && LeavesTokens(action) && !action.CreateUser?
    ensures var t' := Perform(t, caller, action, now, settings).0;
            t'.users.Keys == t.users.Keys && (forall u :: u in t.users ==> t'.users[u].username == t.users[u].username)
            && t'.tokens.Keys == t.tokens.Keys
            && forall k :: k in t.tokens ==>
                 t'.tokens[k].kind == t.tokens[k].kind && (t.tokens[k].kind.Agent? ==> t'.tokens[k] == t.tokens[k])
  {
    match action
    case ChangePassword(_, new_) => PasswordLeavesAgents(t, caller, action, now, settings);
    case Logout => assert forall k :: k in t.tokens && t.tokens[k].id == caller.id ==> k == Sha256Hex(s);
    case _ =>
  }

  lemma PasswordLeavesAgents(t: Tables, caller: Token, action: Action, now: Time, settings: nat)
    requires caller.user in t.users && action.ChangePassword?
    ensures var t' := Perform(t, caller, action, now, settings).0;
            t'.users.Keys == t.users.Keys && (forall u :: u in t.users ==> t'.users[u].username == t.users[u].username)
            && t'.tokens.Keys == t.tokens.Keys
            && forall k :: k in t.tokens ==>
                 t'.tokens[k].kind == t.tokens[k].kind && (t.tokens[k].kind.Agent? ==> t'.tokens[k] == t.tokens[k])
  {
  }

  lemma NewUserShowsNothing(t: Tables, t': Tables, id: Id)
    requires Sound(t) && t'.tokens == t.tokens && id !in t.users
    requires forall u :: u in t.users ==> u in t'.users && t'.users[u] == t.users[u]
    ensures Shown(t') == Shown(t)
  {
    forall k | k in t.tokens ensures ShownRow(t', t.tokens[k]) == ShownRow(t, t.tokens[k]) {
    }
  }

  /** With the right password a sign-in starts a session of that account, named and scoped as sessions are, which is
      shown in no list and is taken until its end. */
  lemma SignInShows(t: Tables, call: Call, now: Time, later: Time, settings: nat, user: Id)
    requires Sound(t) && call.Login? && NewId(t, call.id) && Sha256Hex(call.secret) !in t.tokens
    requires user in t.users && t.users[user].username == call.username && t.users[user].hash.of == call.password
    ensures var t' := SignIn(t, call, now, later, settings).0;
            var row := Token(call.id, "session", Session, "remove_destructive", user, now, None, Some(later), false);
            Sound(t') && Shown(t') == Shown(t)
            && t'.users.Keys == t.users.Keys
            && (forall u :: u in t.users ==> t'.users[u].username == t.users[u].username)
            && forall n: Time :: Instant(n) < Instant(later) ==> Presented(t', call.secret, row, n)
  {
    SignInMeans(t, call, now, later, settings);
    SignInRow(t, call, now, later, settings, user);
    var t' := SignIn(t, call, now, later, settings).0;
    assert forall k :: k in t.tokens ==> k in t'.tokens && t'.tokens[k] == t.tokens[k];
    ShownBySameRows(t, t');
  }

  lemma SignInRow(t: Tables, call: Call, now: Time, later: Time, settings: nat, user: Id)
    requires UniqueNames(t.users) && call.Login?
    requires user in t.users && t.users[user].username == call.username && t.users[user].hash.of == call.password
    ensures var t' := SignIn(t, call, now, later, settings).0;
            var row := Token(call.id, "session", Session, "remove_destructive", user, now, None, Some(later), false);
            t'.tokens == t.tokens[Sha256Hex(call.secret) := row] && t'.users.Keys == t.users.Keys
            && forall u :: u in t.users ==> t'.users[u].username == t.users[u].username
  {
    NamedFinds(t.users, call.username);
  }

  /** A sign-in, then the session asking for itself. */
  lemma SignInThenSelf(t: Tables, call: Call, now: Time, later: Time, then_: Time, later': Time, settings: nat,
                       user: Id)
    requires Sound(t) && call.Login? && NewId(t, call.id) && Sha256Hex(call.secret) !in t.tokens
    requires user in t.users && t.users[user].username == call.username && t.users[user].hash.of == call.password
    requires Instant(then_) < Instant(later)
    ensures var t' := Step(t, Timed(call, now, later), settings).0;
            Step(t', Timed(Authed(Some(call.secret), TokenSelf), then_, later'), settings).1
            == Self(call.id, "session", Session, "remove_destructive", call.username, Some(later'))
  {
    SignInShows(t, call, now, later, settings, user);
    var t' := SignIn(t, call, now, later, settings).0;
    var row := Token(call.id, "session", Session, "remove_destructive", user, now, None, Some(later), false);
    SessionReplies(t', call.secret, row, TokenSelf, then_, later', settings);
  }

  /** A restart drops exactly the sessions that are revoked or whose end has come; nothing that is listed changes. */
  lemma RestartShows(t: Tables, now: Time)
    requires Sound(t)
    ensures var t' := Purge(t, now);
            t'.users == t.users && Shown(t') == Shown(t)
            && (forall k :: k in t'.tokens <==>
                  k in t.tokens
                  && (t.tokens[k].kind.Agent?
                      || (!t.tokens[k].revoked && Instant(now) < Instant(t.tokens[k].expires.value))))
            && forall k :: k in t'.tokens ==> t'.tokens[k] == t.tokens[k]
  {
    var t' := Purge(t, now);
    forall k | k in t.tokens && t.tokens[k].kind.Session?
      ensures k in t'.tokens <==> !t.tokens[k].revoked && Instant(now) < Instant(t.tokens[k].expires.value)
    {
      TextOrderIsTimeOrder(t.tokens[k].expires.value, now);
    }
    ShownBySameRows(t, t');
  }

  // ---- accounts ----

  /** A session lists every account once, by username. */
  lemma AccountsListed(t: Tables, s: string, row: Token, now: Time, later: Time, settings: nat)
    returns (list: seq<(Id, string)>)
    requires Sound(t) && Presented(t, s, row, now) && row.kind.Session?
    ensures Step(t, Timed(Authed(Some(s), ListUsers), now, later), settings).1 == Users(list)
    ensures forall u, name :: (u, name) in list <==> u in t.users && t.users[u].username == name
    ensures forall i, j :: 0 <= i < j < |list| ==> Less(list[i].1, list[j].1)
  {
    Resolved(t, s, row, now, later);
    SessionSteps(t, s, row, ListUsers, now, later, settings);
    var (t', caller) := Resolve(t, Some(s), now, later);
    list := InOrder(Listed(Names(t.users)), NameBefore);
    ListReply(t', caller.value, now, settings);
    ListHolds(t.users, list);
  }

  lemma ListReply(t: Tables, caller: Token, now: Time, settings: nat)
    requires caller.user in t.users
    ensures Perform(t, caller, ListUsers, now, settings).1 == Users(InOrder(Listed(Names(t.users)), NameBefore))
  {
  }

  lemma ListHolds(users: map<Id, User>, list: seq<(Id, string)>)
    requires UniqueNames(users) && list == InOrder(Listed(Names(users)), NameBefore)
    ensures forall u, name :: (u, name) in list <==> u in users && users[u].username == name
    ensures forall i, j :: 0 <= i < j < |list| ==> Less(list[i].1, list[j].1)
  {
    AccountsAreListed(users);
    forall u, name ensures (u, name) in Listed(Names(users)) <==> u in users && users[u].username == name {
    }
  }

  /** Among what sessions do, creating an account adds just that account, with its password; deleting one takes just
      that one; nothing else adds, removes or renames an account. */
  lemma AccountsAfter(t: Tables, s: string, row: Token, action: Action, now: Time, later: Time, settings: nat)
    requires Sound(t) && Presented(t, s, row, now) && row.kind.Session?
    requires action.CreateUser? ==> action.userId !in t.users
    ensures var (t', reply) := Step(t, Timed(Authed(Some(s), action), now, later), settings);
            AccountsChange(t.users, action, reply, t'.users)
  {
    Resolved(t, s, row, now, later);
    SessionSteps(t, s, row, action, now, later, settings);
    var (t', caller) := Resolve(t, Some(s), now, later);
    ActionsOnAccounts(t', caller.value, action, now, settings);
  }

  ghost predicate AccountsChange(users: map<Id, User>, action: Action, reply: Reply, users': map<Id, User>) {
    if action.CreateUser? && reply.UserMade? then
      users'.Keys == users.Keys + {action.userId} && users'[action.userId].username == action.username
      && users'[action.userId].hash.of == action.password
      && forall u :: u in users ==> users'[u] == users[u]
    else if action.DeleteUser? && reply == Done then users' == users - {action.deleted}
    else users'.Keys == users.Keys && forall u :: u in users ==> users'[u].username == users[u].username
  }

  lemma ActionsOnAccounts(t: Tables, caller: Token, action: Action, now: Time, settings: nat)
    requires caller.user in t.users && (action.CreateUser? ==> action.userId !in t.users)
    ensures var (t', reply) := Perform(t, caller, action, now, settings);
            AccountsChange(t.users, action, reply, t'.users)
  {
  }

  // ---- soundness is kept ----

  predicate NewUserId(t: Tables, call: Call) {
    call.Authed? && call.action.CreateUser? ==> call.action.userId !in t.users
  }

  lemma PerformKeepsNames(t: Tables, caller: Token, action: Action, now: Time, settings: nat)
    requires UniqueNames(t.users) && caller.user in t.users && (action.CreateUser? ==> action.userId !in t.users)
    ensures UniqueNames(Perform(t, caller, action, now, settings).0.users)
  {
    if action.CreateUser? { NamedFinds(t.users, action.username); }
  }

  ghost predicate AllShaped(t: Tables) {
    forall k :: k in t.tokens ==> Shaped(t.tokens[k])
  }

  lemma PerformKeepsShape(t: Tables, caller: Token, action: Action, now: Time, settings: nat)
    requires AllShaped(t) && caller.user in t.users
    ensures AllShaped(Perform(t, caller, action, now, settings).0)
  {
  }

  lemma StepKeepsShape(t: Tables, c: Timed, settings: nat)
    requires AllShaped(t)
    ensures AllShaped(Step(t, c, settings).0)
  {
    match c.call
    case Authed(bearer, action) =>
      var (t', a) := Resolve(t, bearer, c.now, c.later);
      assert AllShaped(t');
      if a.Some? { PerformKeepsShape(t', a.value, action, c.now, settings); }
    case _ =>
  }

  /** The tables with one account and no token are sound, and every call that draws fresh ids and secrets keeps them so,
      whatever the clock says. */
  lemma SoundFromTheStart(t: Tables, c: Timed, settings: nat, s: string, user: Id, first: User)
    ensures Sound(Tables(map[user := first], map[]))
    ensures Sound(t) && Fresh(t, c.call, s) && NewUserId(t, c.call) ==> Sound(Step(t, c, settings).0)
  {
    if Sound(t) && Fresh(t, c.call, s) && NewUserId(t, c.call) {
      StepKeepsOk(t, c, settings, s);
      StepKeepsShape(t, c, settings);
      if c.call.Login? { SignInMeans(t, c.call, c.now, c.later, settings); }
      if c.call.Authed? {
        var (t', a) := Resolve(t, c.call.bearer, c.now, c.later);
        if a.Some? { PerformKeepsNames(t', a.value, c.call.action, c.now, settings); }
      }
    }
  }
}

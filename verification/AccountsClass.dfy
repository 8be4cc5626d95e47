/** `Accounts` over its two tables, changed in place. What a call means is said by the secrets that are taken
    afterwards, at every time. */
module AccountsClass {
  import opened Common
  import opened Iso
  import opened Ordering
  import opened Sorting
  import opened Accounts
  import opened Sessions

  // ---- which secrets a change of the tables affects ----

  /** The rows among `gone` are refused at every time; every other secret is taken exactly when it was before. */
  ghost predicate TakesAway(t: Tables, t': Tables, gone: set<Key>) {
    forall s, n: Time :: Accepts(t', s, n) <==> Accepts(t, s, n) && Sha256Hex(s) !in gone
  }

  ghost function WithId(t: Tables, id: Id): set<Key> {
    set k | k in t.tokens && t.tokens[k].id == id
  }

  ghost function AgentsWithId(t: Tables, id: Id): set<Key> {
    set k | k in t.tokens && t.tokens[k].id == id && t.tokens[k].kind.Agent?
  }

  ghost function OwnedBy(t: Tables, user: Id): set<Key> {
    set k | k in t.tokens && t.tokens[k].user == user
  }

  ghost function OtherSessions(t: Tables, user: Id, keep: Id): set<Key> {
    set k | k in t.tokens && t.tokens[k].user == user && t.tokens[k].kind.Session? && t.tokens[k].id != keep
  }

  lemma RevocationTakes(t: Tables, id: Id)
    ensures TakesAway(t, t.(tokens := RevokeById(t.tokens, id)), WithId(t, id))
  {
  }

  lemma SignOutTakes(t: Tables, user: Id, keep: Id)
    ensures TakesAway(t, t.(tokens := RevokeOthers(t.tokens, user, keep)), OtherSessions(t, user, keep))
  {
  }

  lemma RemovalTakes(t: Tables, user: Id)
    ensures TakesAway(t, RemoveUser(t, user), OwnedBy(t, user))
  {
  }

  /** With unique ids, revoking the id of a live agent token takes away no session. */
  lemma AgentRevocationTakes(t: Tables, id: Id)
    requires TablesOk(t)
    ensures TakesAway(t, if AgentById(t.tokens, id) then t.(tokens := RevokeById(t.tokens, id)) else t,
                      AgentsWithId(t, id))
  {
    if AgentById(t.tokens, id) {
      RevocationTakes(t, id);
      assert WithId(t, id) == AgentsWithId(t, id);
    } else {
      forall k | k in AgentsWithId(t, id) ensures t.tokens[k].revoked {
      }
      forall s, n: Time ensures Accepts(t, s, n) <==> Accepts(t, s, n) && Sha256Hex(s) !in AgentsWithId(t, id) {
      }
    }
  }

  /** Changing users without adding or removing one affects no secret. */
  lemma UsersOnly(t: Tables, users: map<Id, User>)
    requires users.Keys == t.users.Keys
    ensures TakesAway(t, t.(users := users), {})
  {
  }

  /** No secret is affected that is taken at `now` or later. */
  ghost predicate Spares(t: Tables, t': Tables, now: Time) {
    forall s, n: Time :: Instant(now) <= Instant(n) ==> (Accepts(t', s, n) <==> Accepts(t, s, n))
  }

  /** The purge, which compares texts, is such a change. */
  lemma PurgeSpares(t: Tables, now: Time)
    ensures Spares(t, Purge(t, now), now)
  {
    forall s, n: Time | Instant(now) <= Instant(n) ensures Accepts(Purge(t, now), s, n) <==> Accepts(t, s, n) {
      var k := Sha256Hex(s);
      if k in t.tokens && t.tokens[k].expires.Some? { TextOrderIsTimeOrder(t.tokens[k].expires.value, now); }
    }
  }

  lemma PurgeCount(tokens: map<Key, Token>, dead: set<Key>, kept: map<Key, Token>)
    requires dead <= tokens.Keys && kept.Keys == tokens.Keys - dead
    ensures |dead| == |tokens| - |kept|
  {
    assert |tokens| == |tokens.Keys| && |kept| == |kept.Keys|;
    assert tokens.Keys == kept.Keys + dead;
  }

  /** The secret is taken exactly until `end`, or without end; no other secret is affected. */
  ghost predicate Runs(t: Tables, t': Tables, secret: string, end: Option<Time>) {
    (forall n: Time :: Accepts(t', secret, n) <==> end.None? || Instant(n) < Instant(end.value))
    && forall s, n: Time :: s != secret ==> (Accepts(t', s, n) <==> Accepts(t, s, n))
  }

  lemma IssueRuns(t: Tables, token: Token, secret: string)
    requires token.user in t.users && !token.revoked
    ensures Runs(t, t.(tokens := t.tokens[Sha256Hex(secret) := token]), secret, token.expires)
  {
  }

  /** What a presentation means. The secret is taken exactly if it is acceptable now, and then it runs on, a
      session to its new end; a refusal is final; no other secret is affected. */
  lemma PresentationMeans(t: Tables, s: string, now: Time, later: Time)
    requires TablesOk(t)
    ensures var (t', token) := Resolve(t, Some(s), now, later);
            (token.Some? <==> Accepts(t, s, now))
            && (token.Some? ==> Runs(t, t', s, token.value.expires)
                                && (token.value.kind.Session? ==> token.value.expires == Some(later)))
            && (token.None? ==> TakesAway(t, t', {Sha256Hex(s)}))
  {
    var k := Sha256Hex(s);
    var (t', token) := Resolve(t, Some(s), now, later);
    assert forall j :: j in t.tokens && j != k ==> j in t'.tokens && t'.tokens[j] == t.tokens[j];
  }

  ghost predicate UniqueNames(users: map<Id, User>) {
    forall u, v :: u in users && v in users && users[u].username == users[v].username ==> u == v
  }

  /** As usernames are unique, the list of accounts holds each once, by username. */
  lemma AccountsAreListed(users: map<Id, User>)
    requires UniqueNames(users)
    ensures var listed := InOrder(Listed(Names(users)), NameBefore);
            Sorts(listed, Listed(Names(users)), NameBefore)
            && (forall i, j :: 0 <= i < j < |listed| ==> Less(listed[i].1, listed[j].1))
            && forall u :: u in users ==> (u, users[u].username) in listed
  {
    var s := Listed(Names(users));
    forall x, y | x in s && y in s
      ensures !(NameBefore(x, y) && NameBefore(y, x)) && (x == y || NameBefore(x, y) || NameBefore(y, x))
    {
      LessTotal(x.1, y.1);
    }
    forall x, y, z | x in s && y in s && z in s && NameBefore(x, y) && NameBefore(y, z) ensures NameBefore(x, z) {
      LessTransitive(x.1, y.1, z.1);
    }
    assert Total(s, NameBefore);
    forall u | u in users ensures (u, users[u].username) in s {
      assert u in Names(users);
    }
  }

  /** Whether a username and a password open an account. */
  ghost predicate Opens(users: map<Id, User>, username: string, password: string) {
    exists u :: u in users && users[u].username == username && users[u].hash.of == password
  }

  lemma NamedFinds(users: map<Id, User>, username: string)
    ensures match Named(Names(users), username)
            case Some(u) => u in users && users[u].username == username
            case None => forall u :: u in users ==> users[u].username != username
  {
    forall u | u in users ensures u in Names(users) && Names(users)[u] == users[u].username {
    }
  }

  /** What a sign-in means: with the right password a session that runs to its end, otherwise nothing. */
  lemma SignInMeans(t: Tables, call: Call, now: Time, later: Time, settings: nat)
    requires call.Login? && UniqueNames(t.users) && TablesOk(t) && NewId(t, call.id)
    ensures var (t', reply) := SignIn(t, call, now, later, settings);
            UniqueNames(t'.users) && TablesOk(t') && (reply.SignedIn? <==> Opens(t.users, call.username, call.password))
            && if reply.SignedIn? then Runs(t, t', call.secret, Some(later)) else t' == t
  {
    var named := Named(Names(t.users), call.username);
    NamedFinds(t.users, call.username);
    if named.Some? && Verify(t.users[named.value].hash, call.password) {
      var t1 := Rehashed(t, named.value, settings);
      UsersOnly(t, t1.users);
      IssueRuns(t1, NewSession(call.id, named.value, now, later), call.secret);
    }
  }

  /** What a change of password means: with the right current password only the new one opens the account, nobody
      else's changes, and of the account's sessions only the caller's is still taken. */
  lemma PasswordChangeMeans(t: Tables, caller: Token, current: string, new_: string, now: Time, settings: nat)
    requires UniqueNames(t.users) && TablesOk(t) && caller.user in t.users
    ensures var (t', reply) := Perform(t, caller, Action.ChangePassword(current, new_), now, settings);
            UniqueNames(t'.users) && TablesOk(t') && t'.users.Keys == t.users.Keys
            && reply == (if t.users[caller.user].hash.of == current then Done else WRONG_PASSWORD)
            && (if reply == Done then TakesAway(t, t', OtherSessions(t, caller.user, caller.id)) else t' == t)
            && (reply == Done ==> forall u, p :: u in t'.users ==>
                  (Verify(t'.users[u].hash, p) <==> if u == caller.user then p == new_ else Verify(t.users[u].hash, p)))
  {
    if t.users[caller.user].hash.of == current {
      var t1 := Rehashed(t, caller.user, settings);
      var users := t1.users[caller.user := t1.users[caller.user].(hash := Argon2(new_, settings))];
      UsersOnly(t, users);
      SignOutTakes(Tables(users, t.tokens), caller.user, caller.id);
      PerformUpdates(t, caller, Action.ChangePassword(current, new_), now, settings);
    }
  }

  class Service {
    var users: map<Id, User>
    var tokens: map<Key, Token>
    const settings: nat

    function View(): Tables
      reads this
    {
      Tables(users, tokens)
    }

    /** The database's keys: usernames are unique, token ids too, and every token has its owner. */
    ghost predicate Valid()
      reads this
    {
      UniqueNames(users) && TablesOk(View())
    }

    constructor (settings: nat)
      ensures Valid() && View() == Tables(map[], map[]) && this.settings == settings
    {
      this.settings, users, tokens := settings, map[], map[];
    }

    /** Check a password; make a hash of lower settings again. Nobody's password changes by it. */
    method VerifyPassword(user: Id, password: string) returns (ok: bool)
      requires Valid() && user in users
      modifies this`users
      ensures Valid() && users.Keys == old(users.Keys)
      ensures ok <==> old(users)[user].hash.of == password
      ensures forall u, p :: u in users ==> (Verify(users[u].hash, p) <==> Verify(old(users)[u].hash, p))
      ensures ok ==> users[user].hash.settings >= settings
      ensures View() == if ok then Rehashed(old(View()), user, settings) else old(View())
    {
      ok := users[user].hash.of == password;
      if ok && users[user].hash.settings < settings {
        users := users[user := users[user].(hash := Argon2(password, settings))];
      }
    }

    /** Add an account; refused when the username is taken. */
    method CreateUser(id: Id, username: string, password: string) returns (conflict: bool)
      requires Valid() && id !in users
      modifies this`users
      ensures Valid() && (conflict <==> exists u :: u in old(users) && old(users)[u].username == username)
      ensures users == if conflict then old(users)
                       else old(users)[id := User(username, Argon2(password, settings))]
    {
      conflict := exists u :: u in users && users[u].username == username;
      if !conflict { users := users[id := User(username, Argon2(password, settings))]; }
    }

    /** A sign-in with the right password opens a session that runs to its end. */
    method Login(username: string, password: string, id: Id, secret: string, now: Time, later: Time)
      returns (session: Option<Token>)
      requires Valid() && NewId(View(), id)
      modifies this
      ensures Valid()
      ensures session.Some? <==> Opens(old(users), username, password)
      ensures if session.Some? then Runs(old(View()), View(), secret, Some(later)) else View() == old(View())
      ensures var call := Call.Login(None, username, password, id, secret);
              var (t, reply) := SignIn(old(View()), call, now, later, settings);
              View() == t && (session.Some? <==> reply.SignedIn?)
              && (session.Some? ==> session.value == NewSession(id, reply.userId, now, later))
    {
      SignInMeans(View(), Call.Login(None, username, password, id, secret), now, later, settings);
      if forall u :: u in users ==> users[u].username != username { return None; }
      var user :| user in users && users[user].username == username;
      assert Names(users)[user] == username;
      assert Named(Names(users), username) == Some(user);
      var ok := VerifyPassword(user, password);
      if !ok { return None; }
      var token := NewSession(id, user, now, later);
      tokens := tokens[Sha256Hex(secret) := token];
      session := Some(token);
    }

    /** The token behind a bearer: found exactly when the secret is taken now. A session then runs to `later`; a
        refusal is final. */
    method ResolveBearer(bearer: Option<string>, now: Time, later: Time) returns (token: Option<Token>)
      requires Valid()
      modifies this`tokens
      ensures Valid()
      ensures token.Some? <==> bearer.Some? && Accepts(old(View()), bearer.value, now)
      ensures token.Some? ==> Runs(old(View()), View(), bearer.value, token.value.expires)
                              && (token.value.kind.Session? ==> token.value.expires == Some(later))
      ensures token.None? && bearer.Some? ==> TakesAway(old(View()), View(), {Sha256Hex(bearer.value)})
      ensures bearer.None? ==> View() == old(View())
      ensures (View(), token) == Resolve(old(View()), bearer, now, later)
    {
      ResolveKeepsOk(View(), bearer, now, later);
      if bearer.None? { return None; }
      PresentationMeans(View(), bearer.value, now, later);
      if Sha256Hex(bearer.value) !in tokens { return None; }
      var row := tokens[Sha256Hex(bearer.value)];
      if row.revoked { return None; }
      if row.expires.Some? && Instant(row.expires.value) <= Instant(now) {
        tokens := RevokeById(tokens, row.id);
        return None;
      }
      if row.user !in users { return None; }
      tokens := TouchById(tokens, row.id, now, later);
      token := Some(Touch(row, now, later));
    }

    /** The session's secret is never taken again. */
    method Logout(session: Token, now: Time)
      requires Valid()
      modifies this`tokens
      ensures Valid() && TakesAway(old(View()), View(), WithId(old(View()), session.id))
      ensures View() == old(View()).(tokens := RevokeById(old(tokens), session.id))
    {
      RevocationTakes(View(), session.id);
      tokens := RevokeById(tokens, session.id);
    }

    /** `change_password` of the route. With the right current password only the new one opens the account, and of
        the account's sessions only the caller's is still taken. */
    method ChangePassword(caller: Token, current: string, new_: string, now: Time) returns (reply: Reply)
      requires Valid() && caller.user in users
      modifies this
      ensures Valid() && users.Keys == old(users.Keys)
      ensures reply == if old(users)[caller.user].hash.of == current then Done else WRONG_PASSWORD
      ensures reply == WRONG_PASSWORD ==> View() == old(View())
      ensures reply == Done ==> TakesAway(old(View()), View(), OtherSessions(old(View()), caller.user, caller.id))
      ensures reply == Done ==> forall u, p :: u in users ==>
                (Verify(users[u].hash, p) <==> if u == caller.user then p == new_ else Verify(old(users)[u].hash, p))
      ensures (View(), reply) == Perform(old(View()), caller, Action.ChangePassword(current, new_), now, settings)
    {
      PasswordChangeMeans(View(), caller, current, new_, now, settings);
      var ok := VerifyPassword(caller.user, current);
      if !ok { return WRONG_PASSWORD; }
      users := users[caller.user := users[caller.user].(hash := Argon2(new_, settings))];
      tokens := RevokeOthers(tokens, caller.user, caller.id);
      reply := Done;
    }

    /** Exactly the secret of an agent token of that id is not taken any more. */
    method RevokeAgentToken(tokenId: Id, now: Time) returns (found: bool)
      requires Valid()
      modifies this`tokens
      ensures Valid() && TakesAway(old(View()), View(), AgentsWithId(old(View()), tokenId))
      ensures found <==> exists k :: k in AgentsWithId(old(View()), tokenId) && !old(tokens)[k].revoked
      ensures View() == if found then old(View()).(tokens := RevokeById(old(tokens), tokenId)) else old(View())
    {
      found := AgentById(tokens, tokenId);
      AgentRevocationTakes(View(), tokenId);
      if found { tokens := RevokeById(tokens, tokenId); }
    }

    /** Never the last account. With an account go exactly the secrets it owned. */
    method DeleteUser(caller: Token, user: Id, now: Time) returns (reply: Reply)
      requires Valid() && caller.user in users
      modifies this
      ensures Valid() && |users| > 0
      ensures reply == if user !in old(users) then NO_USER else if |old(users)| == 1 then LAST_USER else Done
      ensures if reply == Done
              then users == old(users) - {user} && TakesAway(old(View()), View(), OwnedBy(old(View()), user))
              else View() == old(View())
      ensures (View(), reply) == Perform(old(View()), caller, Action.DeleteUser(user), now, settings)
    {
      assert |users| == |users.Keys| && caller.user in users.Keys;
      if user !in users { return NO_USER; }
      if |users| <= 1 { return LAST_USER; }
      RemovalTakes(View(), user);
      ghost var others := users.Keys - {user};
      users, tokens := users - {user}, map k | k in tokens && tokens[k].user != user :: tokens[k];
      assert users.Keys == others && |users| == |users.Keys|;
      reply := Done;
    }

    /** Only what is refused anyway goes. */
    method PurgeDeadSessions(now: Time) returns (purged: nat)
      requires Valid()
      modifies this`tokens
      ensures Valid() && Spares(old(View()), View(), now) && View() == Purge(old(View()), now)
      ensures purged == |old(tokens)| - |tokens|
    {
      PurgeSpares(View(), now);
      var dead := set k | k in tokens && PurgedRow(tokens[k], now);
      purged := |dead|;
      PurgeCount(tokens, dead, map k | k in tokens && !PurgedRow(tokens[k], now) :: tokens[k]);
      tokens := map k | k in tokens && !PurgedRow(tokens[k], now) :: tokens[k];
    }
  }
}

/** The real tables and the fake's dictionary, token by token, whatever the clock does. */
module AccountsAgree {
  import opened Common
  import opened Iso
  import opened Ordering
  import opened Sorting
  import opened Accounts

  ghost predicate UsersAgree(t: Tables, f: FakeState) {
    t.users.Keys == f.users.Keys
    && forall u :: u in t.users ==>
         t.users[u].username == f.users[u].username && t.users[u].hash.of == f.users[u].password
  }

  /** An agent token has no expiry, a session has one. */
  predicate Shaped(token: Token) {
    token.kind.Agent? <==> token.expires.None?
  }

  /** What replies show of a token: all of it, but not when a session was last used. */
  function Shown(token: Token): Token {
    if token.kind.Session? then token.(lastUsed := None) else token
  }

  /** The secrets the real backend has met past their end, in a request or in a purge, and so has ended. */
  type Met = set<string>

  /** What the two hold for one issued secret. Once met past its end it is dead on the real side only; otherwise it
      is the same token, or dead on one side and flagged on the other. */
  ghost predicate TokenAgrees(t: Tables, f: FakeState, met: Met, s: string)
    requires s in f.secrets && f.secrets[s] in f.tokens
  {
    var token, k := f.tokens[f.secrets[s]], Sha256Hex(s);
    token.id == f.secrets[s] && Shaped(token) && (!token.revoked ==> token.user in f.users)
    && (k in t.tokens ==> t.tokens[k].id == f.secrets[s] && Shaped(t.tokens[k]))
    && if s in met then token.kind.Session? && Dead(t, s)
       else if token.revoked then Dead(t, s)
       else k in t.tokens && Shown(t.tokens[k]) == Shown(token)
  }

  ghost predicate Agree(t: Tables, f: FakeState, met: Met) {
    UsersAgree(t, f) && met <= f.secrets.Keys
    && (forall s :: s in f.secrets ==> f.secrets[s] in f.tokens && TokenAgrees(t, f, met, s))
    && (forall r, s :: r in f.secrets && s in f.secrets && f.secrets[r] == f.secrets[s] ==> r == s)
    && (forall i :: i in f.tokens ==> exists s :: s in f.secrets && f.secrets[s] == i)
    && (forall k :: k in t.tokens ==> k.of in f.secrets)
  }

  /** Ids and secrets are drawn fresh. */
  predicate FreshCall(f: FakeState, call: Call) {
    match call
    case Login(_, _, _, id, secret) => id !in f.tokens && secret !in f.secrets
    case Authed(_, CreateToken(_, _, id, secret)) => id !in f.tokens && secret !in f.secrets
    case Authed(_, CreateUser(_, _, id)) => id !in f.users
    case _ => true
  }

  lemma NamesAgree(t: Tables, f: FakeState)
    requires UsersAgree(t, f)
    ensures Names(t.users) == FakeNames(f.users) && |t.users| == |f.users|
  {
  }

  // ---- the changes of the two tables ----

  /** Changing the two tables token by token keeps them in agreement. */
  lemma TokensAgree(t: Tables, f: FakeState, met: Met, t': Tables, f': FakeState, met': Met)
    requires Agree(t, f, met) && UsersAgree(t', f') && met' <= f.secrets.Keys
    requires f'.secrets == f.secrets && f'.tokens.Keys == f.tokens.Keys && t'.tokens.Keys <= t.tokens.Keys
    requires forall s :: s in f.secrets ==> TokenAgrees(t', f', met', s)
    ensures Agree(t', f', met')
  {
  }

  /** The secrets the fake still holds and the clock says have ended. */
  function Lapsed(f: FakeState, now: Time): Met {
    set s | s in f.secrets && f.secrets[s] in f.tokens
            && !f.tokens[f.secrets[s]].revoked && Expired(f.tokens[f.secrets[s]], now)
  }

  lemma PurgedRowAgrees(t: Tables, f: FakeState, met: Met, now: Time, s: string)
    requires s in f.secrets && f.secrets[s] in f.tokens && TokenAgrees(t, f, met, s)
    ensures TokenAgrees(Purge(t, now), f, met + Lapsed(f, now), s)
  {
    var k := Sha256Hex(s);
    if k in t.tokens && t.tokens[k].expires.Some? { TextOrderIsTimeOrder(t.tokens[k].expires.value, now); }
  }

  /** A purge, which compares texts, drops what is dead and ends what has lapsed. */
  lemma PurgeAgrees(t: Tables, f: FakeState, met: Met, now: Time)
    requires Agree(t, f, met)
    ensures Agree(Purge(t, now), f, met + Lapsed(f, now))
  {
    forall s | s in f.secrets ensures TokenAgrees(Purge(t, now), f, met + Lapsed(f, now), s) {
      PurgedRowAgrees(t, f, met, now, s);
    }
    TokensAgree(t, f, met, Purge(t, now), f, met + Lapsed(f, now));
  }

  /** A secret the real backend has met past its end is live again in the fake: the clock has run back over it. */
  predicate Revived(f: FakeState, met: Met, bearer: Option<string>, now: Time) {
    bearer.Some? && bearer.value in met && bearer.value in f.secrets && f.secrets[bearer.value] in f.tokens
    && Live(f.tokens[f.secrets[bearer.value]], now)
  }

  /** The secrets met past their end after a presentation. */
  function MetWith(f: FakeState, met: Met, bearer: Option<string>, now: Time): Met {
    met + if bearer.Some? && bearer.value in Lapsed(f, now) then {bearer.value} else {}
  }

  lemma OtherUntouched(t: Tables, f: FakeState, met: Met, bearer: string, now: Time, later: Time, s: string)
    requires s in f.secrets && f.secrets[s] in f.tokens && TokenAgrees(t, f, met, s)
    requires bearer in f.secrets && f.secrets[bearer] in f.tokens && TokenAgrees(t, f, met, bearer)
    requires f.secrets[s] != f.secrets[bearer] && UsersAgree(t, f)
    ensures TokenAgrees(Resolve(t, Some(bearer), now, later).0, FakeResolve(f, Some(bearer), now, later).0,
                        MetWith(f, met, Some(bearer), now), s)
  {
  }

  lemma TouchAgrees(t: Tables, f: FakeState, met: Met, s: string, now: Time, later: Time)
    requires s in f.secrets && f.secrets[s] in f.tokens && TokenAgrees(t, f, met, s)
    requires UsersAgree(t, f) && !Revived(f, met, Some(s), now)
    ensures TokenAgrees(Resolve(t, Some(s), now, later).0, FakeResolve(f, Some(s), now, later).0,
                        MetWith(f, met, Some(s), now), s)
  {
  }

  lemma BearersAgree(t: Tables, f: FakeState, met: Met, bearer: string, now: Time, later: Time)
    requires bearer in f.secrets && f.secrets[bearer] in f.tokens && TokenAgrees(t, f, met, bearer)
    requires UsersAgree(t, f) && !Revived(f, met, Some(bearer), now)
    ensures var (t', a) := Resolve(t, Some(bearer), now, later);
            var (f', b) := FakeResolve(f, Some(bearer), now, later);
            a == b && t'.users == t.users && t'.tokens.Keys == t.tokens.Keys
            && f'.users == f.users && f'.secrets == f.secrets && f'.tokens.Keys == f.tokens.Keys
            && (b.Some? ==> b.value.user in f'.users && b.value.id in f'.tokens)
  {
  }

  /** The same secrets resolve, to the same token, touched alike, unless the clock has revived one. */
  lemma ResolvesAgree(t: Tables, f: FakeState, met: Met, bearer: Option<string>, now: Time, later: Time)
    requires Agree(t, f, met) && !Revived(f, met, bearer, now)
    ensures var (t', a) := Resolve(t, bearer, now, later);
            var (f', b) := FakeResolve(f, bearer, now, later);
            a == b && Agree(t', f', MetWith(f, met, bearer, now)) && t'.users == t.users && f'.users == f.users
            && f'.secrets == f.secrets && f'.tokens.Keys == f.tokens.Keys
            && (b.Some? ==> b.value.user in f'.users && b.value.id in f'.tokens)
  {
    if bearer.Some? && bearer.value in f.secrets {
      BearersAgree(t, f, met, bearer.value, now, later);
      var t' := Resolve(t, bearer, now, later).0;
      var f' := FakeResolve(f, bearer, now, later).0;
      var met' := MetWith(f, met, bearer, now);
      forall s | s in f.secrets ensures TokenAgrees(t', f', met', s) {
        if s == bearer.value {
          TouchAgrees(t, f, met, s, now, later);
        } else {
          OtherUntouched(t, f, met, bearer.value, now, later, s);
        }
      }
      TokensAgree(t, f, met, t', f', met');
    } else {
      assert MetWith(f, met, bearer, now) == met;
    }
  }

  /** A revived secret is refused by the real backend and taken by the fake. */
  lemma RevivedPartWays(t: Tables, f: FakeState, met: Met, bearer: Option<string>, now: Time, later: Time)
    requires Agree(t, f, met) && Revived(f, met, bearer, now)
    ensures Resolve(t, bearer, now, later).1.None?
    ensures var (f', b) := FakeResolve(f, bearer, now, later);
            b.Some? && b.value.kind.Session? && b.value.user in f'.users && b.value.id in f'.tokens
  {
    assert TokenAgrees(t, f, met, bearer.value);
  }

  /** The fake never misses an owner: its list of agent tokens filters nothing out by `user in f.users`, and a
      caller it has resolved has an account and a token, so the last branch of `FakeStep` is never taken. */
  lemma OwnersAreThere(t: Tables, f: FakeState, met: Met, bearer: Option<string>, now: Time, later: Time)
    requires Agree(t, f, met)
    ensures forall i :: i in f.tokens && f.tokens[i].kind.Agent? && !f.tokens[i].revoked ==> f.tokens[i].user in f.users
    ensures var (f', caller) := FakeResolve(f, bearer, now, later);
            caller.Some? ==> caller.value.user in f'.users && caller.value.id in f'.tokens
  {
    forall i | i in f.tokens && !f.tokens[i].revoked ensures f.tokens[i].user in f.users && f.tokens[i].id == i {
      var s :| s in f.secrets && f.secrets[s] == i;
      assert TokenAgrees(t, f, met, s);
    }
  }

  lemma RevocationAgrees(t: Tables, f: FakeState, id: Id, met: Met, s: string)
    requires s in f.secrets && f.secrets[s] in f.tokens && TokenAgrees(t, f, met, s) && id in f.tokens
    ensures TokenAgrees(t.(tokens := RevokeById(t.tokens, id)), FakeRevoke(f, id), met, s)
  {
  }

  lemma RevocationsAgree(t: Tables, f: FakeState, id: Id, met: Met)
    requires Agree(t, f, met) && id in f.tokens
    ensures Agree(t.(tokens := RevokeById(t.tokens, id)), FakeRevoke(f, id), met)
  {
    var t', f' := t.(tokens := RevokeById(t.tokens, id)), FakeRevoke(f, id);
    forall s | s in f.secrets ensures TokenAgrees(t', f', met, s) {
      RevocationAgrees(t, f, id, met, s);
    }
    assert UsersAgree(t', f') by { assert UsersAgree(t, f); }
    TokensAgree(t, f, met, t', f', met);
  }

  lemma SecretsStayApart(f: FakeState, token: Token, secret: string)
    requires forall r, s :: r in f.secrets && s in f.secrets && f.secrets[r] == f.secrets[s] ==> r == s
    requires forall s :: s in f.secrets ==> f.secrets[s] in f.tokens
    requires token.id !in f.tokens
    ensures var f' := FakeStore(f, token, secret);
            forall r, s :: r in f'.secrets && s in f'.secrets && f'.secrets[r] == f'.secrets[s] ==> r == s
  {
  }

  lemma IssuedTokensAgree(t: Tables, f: FakeState, token: Token, secret: string, met: Met, s: string)
    requires Agree(t, f, met) && token.id !in f.tokens && secret !in f.secrets
    requires Shaped(token) && token.user in f.users && (s in f.secrets || s == secret)
    ensures var f' := FakeStore(f, token, secret);
            f'.secrets[s] in f'.tokens
            && TokenAgrees(t.(tokens := t.tokens[Sha256Hex(secret) := token]), f', met, s)
  {
  }

  lemma IssuesAgree(t: Tables, f: FakeState, token: Token, secret: string, met: Met)
    requires Agree(t, f, met) && token.id !in f.tokens && secret !in f.secrets
    requires Shaped(token) && token.user in f.users
    ensures Agree(t.(tokens := t.tokens[Sha256Hex(secret) := token]), FakeStore(f, token, secret), met)
  {
    SecretsStayApart(f, token, secret);
    EveryTokenHasSecret(f, token, secret);
    var t', f' := t.(tokens := t.tokens[Sha256Hex(secret) := token]), FakeStore(f, token, secret);
    assert UsersAgree(t', f') by { assert UsersAgree(t, f); }
    forall s | s in f'.secrets ensures f'.secrets[s] in f'.tokens && TokenAgrees(t', f', met, s) {
      IssuedTokensAgree(t, f, token, secret, met, s);
    }
    assert forall k :: k in t'.tokens ==> k.of in f'.secrets;
  }

  lemma EveryTokenHasSecret(f: FakeState, token: Token, secret: string)
    requires forall i :: i in f.tokens ==> exists s :: s in f.secrets && f.secrets[s] == i
    requires token.id !in f.tokens && secret !in f.secrets
    ensures var f' := FakeStore(f, token, secret);
            forall i :: i in f'.tokens ==> exists s :: s in f'.secrets && f'.secrets[s] == i
  {
    var f' := FakeStore(f, token, secret);
    forall i | i in f'.tokens ensures exists s :: s in f'.secrets && f'.secrets[s] == i {
      if i == token.id {
        assert f'.secrets[secret] == i;
      } else {
        var s :| s in f.secrets && f.secrets[s] == i;
        assert f'.secrets[s] == i;
      }
    }
  }

  lemma SignOutAgrees(t: Tables, f: FakeState, user: Id, keep: Id, met: Met, s: string)
    requires s in f.secrets && f.secrets[s] in f.tokens && TokenAgrees(t, f, met, s)
    ensures TokenAgrees(t.(tokens := RevokeOthers(t.tokens, user, keep)), FakeSignOut(f, user, keep), met, s)
  {
  }

  lemma SignOutsAgree(t: Tables, f: FakeState, user: Id, keep: Id, met: Met)
    requires Agree(t, f, met)
    ensures Agree(t.(tokens := RevokeOthers(t.tokens, user, keep)), FakeSignOut(f, user, keep), met)
  {
    var t', f' := t.(tokens := RevokeOthers(t.tokens, user, keep)), FakeSignOut(f, user, keep);
    forall s | s in f.secrets ensures TokenAgrees(t', f', met, s) {
      SignOutAgrees(t, f, user, keep, met, s);
    }
    TokensAgree(t, f, met, t', f', met);
  }

  lemma RemovalAgrees(t: Tables, f: FakeState, user: Id, met: Met, s: string)
    requires s in f.secrets && f.secrets[s] in f.tokens && TokenAgrees(t, f, met, s)
    ensures TokenAgrees(RemoveUser(t, user), FakeRemoveUser(f, user), met, s)
  {
  }

  /** The cascade's missing rows and the fake's flags are the same refusals. */
  lemma RemovalsAgree(t: Tables, f: FakeState, user: Id, met: Met)
    requires Agree(t, f, met)
    ensures Agree(RemoveUser(t, user), FakeRemoveUser(f, user), met)
  {
    var t', f' := RemoveUser(t, user), FakeRemoveUser(f, user);
    forall s | s in f.secrets ensures TokenAgrees(t', f', met, s) {
      RemovalAgrees(t, f, user, met, s);
    }
    TokensAgree(t, f, met, t', f', met);
  }

  lemma UserChangeAgrees(t: Tables, f: FakeState, t': Tables, f': FakeState, met: Met)
    requires Agree(t, f, met) && UsersAgree(t', f') && f.users.Keys <= f'.users.Keys
    requires t'.tokens == t.tokens && f'.tokens == f.tokens && f'.secrets == f.secrets
    ensures Agree(t', f', met)
  {
  }

  lemma AgentSetsAgree(t: Tables, f: FakeState, met: Met)
    requires Agree(t, f, met)
    ensures AgentTokens(t) == FakeAgentTokens(f)
  {
    forall k | k in t.tokens && t.tokens[k].kind.Agent? && !t.tokens[k].revoked
      ensures f.secrets[k.of] in f.tokens && f.tokens[f.secrets[k.of]] == t.tokens[k]
    {
      assert TokenAgrees(t, f, met, k.of);
      assert Sha256Hex(k.of) == k;
    }
    forall i | i in f.tokens && f.tokens[i].kind.Agent? && !f.tokens[i].revoked
      ensures exists k :: k in t.tokens && t.tokens[k] == f.tokens[i]
    {
      var s :| s in f.secrets && f.secrets[s] == i;
      assert TokenAgrees(t, f, met, s);
      assert Sha256Hex(s) in t.tokens;
    }
  }

  ghost predicate OneById(s: set<PublicToken>) {
    forall x, y :: x in s && y in s && x.id == y.id ==> x == y
  }

  lemma FakeIdsDiffer(t: Tables, f: FakeState, met: Met)
    requires Agree(t, f, met)
    ensures OneById(FakeAgentTokens(f))
  {
    forall i | i in f.tokens ensures f.tokens[i].id == i {
      var s :| s in f.secrets && f.secrets[s] == i;
      assert TokenAgrees(t, f, met, s);
    }
  }

  lemma TextBeforeTransitive(a: PublicToken, b: PublicToken, c: PublicToken)
    requires TextBefore(a, b) && TextBefore(b, c)
    ensures TextBefore(a, c)
  {
    var x, y, z := Text(a.created), Text(b.created), Text(c.created);
    if Less(x, y) && Less(y, z) { LessTransitive(x, y, z); }
    if Less(a.id, b.id) && Less(b.id, c.id) { LessTransitive(a.id, b.id, c.id); }
  }

  lemma TextBeforeTotal(s: set<PublicToken>)
    requires OneById(s)
    ensures Total(s, TextBefore)
  {
    forall x, y | x in s && y in s
      ensures !(TextBefore(x, y) && TextBefore(y, x)) && (x == y || TextBefore(x, y) || TextBefore(y, x))
    {
      LessTotal(Text(x.created), Text(y.created));
      LessTotal(x.id, y.id);
    }
    forall x, y, z | x in s && y in s && z in s && TextBefore(x, y) && TextBefore(y, z) ensures TextBefore(x, z) {
      TextBeforeTransitive(x, y, z);
    }
  }

  /** The same live agent tokens in the same order: oldest first, whether that is read off the stored text or off
      the times. */
  lemma AgentListsAgree(t: Tables, f: FakeState, met: Met)
    requires Agree(t, f, met)
    ensures AgentTokens(t) == FakeAgentTokens(f) && Total(AgentTokens(t), TextBefore)
    ensures InOrder(AgentTokens(t), TextBefore) == InOrder(FakeAgentTokens(f), TimeBefore)
  {
    AgentSetsAgree(t, f, met);
    FakeIdsDiffer(t, f, met);
    TextBeforeTotal(AgentTokens(t));
    OrdersAgree(AgentTokens(t));
  }

  lemma OrdersAgree(s: set<PublicToken>)
    requires OneById(s)
    ensures InOrder(s, TextBefore) == InOrder(s, TimeBefore) && Sorts(InOrder(s, TextBefore), s, TextBefore)
  {
    TextBeforeTotal(s);
    forall x, y | x in s && y in s ensures TextBefore(x, y) <==> TimeBefore(x, y) {
      TextOrderIsTimeOrder(x.created, y.created);
      TextOrderIsTimeOrder(y.created, x.created);
      LessTotal(Text(x.created), Text(y.created));
    }
    SameOrder(s, TextBefore, TimeBefore);
  }

  lemma AgentFound(t: Tables, f: FakeState, id: Id, met: Met)
    requires Agree(t, f, met)
    ensures AgentById(t.tokens, id) <==> id in f.tokens && f.tokens[id].kind.Agent? && !f.tokens[id].revoked
  {
  }

  // ---- calls ----

  lemma RehashAgrees(t: Tables, f: FakeState, user: Id, met: Met, settings: nat)
    requires Agree(t, f, met) && user in t.users
    ensures Agree(Rehashed(t, user, settings), f, met)
  {
    UserChangeAgrees(t, f, Rehashed(t, user, settings), f, met);
  }

  lemma SignInsAgree(t: Tables, f: FakeState, met: Met, c: Timed, settings: nat)
    requires Agree(t, f, met) && c.call.Login? && FreshCall(f, c.call)
    ensures var (t', a) := SignIn(t, c.call, c.now, c.later, settings);
            var (f', b) := FakeSignIn(f, c.call, c.now, c.later);
            a == b && Agree(t', f', met)
  {
    NamesAgree(t, f);
    var named := Named(Names(t.users), c.call.username);
    if named.Some? && Verify(t.users[named.value].hash, c.call.password) {
      RehashAgrees(t, f, named.value, met, settings);
      IssuesAgree(Rehashed(t, named.value, settings), f, NewSession(c.call.id, named.value, c.now, c.later),
                  c.call.secret, met);
    }
  }

  ghost predicate ActionAgrees(t: Tables, f: FakeState, met: Met, caller: Token, action: Action, now: Time,
                               settings: nat)
    requires caller.user in t.users && caller.user in f.users && caller.id in f.tokens
  {
    var (t', a) := Perform(t, caller, action, now, settings);
    var (f', b) := FakePerform(f, caller, action, now);
    a == b && Agree(t', f', met)
  }

  lemma PasswordChangesAgree(t: Tables, f: FakeState, caller: Token, new_: string, met: Met, settings: nat)
    requires Agree(t, f, met) && caller.user in t.users && caller.user in f.users
    ensures var user := caller.user;
            var t1 := Rehashed(t, user, settings);
            var t2 := t1.(users := t1.users[user := t1.users[user].(hash := Argon2(new_, settings))]);
            var f2 := f.(users := f.users[user := f.users[user].(password := new_)]);
            Agree(t2.(tokens := RevokeOthers(t2.tokens, user, caller.id)), FakeSignOut(f2, user, caller.id), met)
  {
    var user := caller.user;
    var t1 := Rehashed(t, user, settings);
    var t2 := t1.(users := t1.users[user := t1.users[user].(hash := Argon2(new_, settings))]);
    var f2 := f.(users := f.users[user := f.users[user].(password := new_)]);
    assert t2.tokens == t.tokens && UsersAgree(t2, f2);
    UserChangeAgrees(t, f, t2, f2, met);
    SignOutsAgree(t2, f2, user, caller.id, met);
  }

  function WithUser(t: Tables, f: FakeState, action: Action, settings: nat): (Tables, FakeState)
    requires action.CreateUser?
  {
    (t.(users := t.users[action.userId := User(action.username, Argon2(action.password, settings))]),
     f.(users := f.users[action.userId := FakeUser(action.username, action.password)]))
  }

  lemma NewUsersAgree(t: Tables, f: FakeState, action: Action, met: Met, settings: nat)
    requires Agree(t, f, met) && action.CreateUser? && action.userId !in f.users
    ensures var (t', f') := WithUser(t, f, action, settings); Agree(t', f', met)
  {
  }

  /** An action by a live caller. */
  ghost predicate Acting(t: Tables, f: FakeState, met: Met, caller: Token, action: Action, now: Time) {
    Agree(t, f, met) && caller.user in t.users && caller.user in f.users && caller.id in f.tokens
    && FreshCall(f, Authed(None, action))
  }

  lemma PasswordActionsAgree(t: Tables, f: FakeState, met: Met, caller: Token, action: Action, now: Time, settings: nat)
    requires Acting(t, f, met, caller, action, now) && action.ChangePassword?
    ensures ActionAgrees(t, f, met, caller, action, now, settings)
  {
    PasswordChangesAgree(t, f, caller, action.new_, met, settings);
    assert UsersAgree(t, f);
  }

  lemma LogoutsAgree(t: Tables, f: FakeState, met: Met, caller: Token, action: Action, now: Time, settings: nat)
    requires Acting(t, f, met, caller, action, now) && action.Logout?
    ensures ActionAgrees(t, f, met, caller, action, now, settings)
  {
    RevocationsAgree(t, f, caller.id, met);
  }

  lemma CreationsAgree(t: Tables, f: FakeState, met: Met, caller: Token, action: Action, now: Time, settings: nat)
    requires Acting(t, f, met, caller, action, now) && action.CreateToken?
    ensures ActionAgrees(t, f, met, caller, action, now, settings)
  {
    assert UsersAgree(t, f);
    IssuesAgree(t, f, NewAgent(action.id, action.name, action.scope, caller.user, now), action.secret, met);
  }

  lemma TokenRevocationResults(t: Tables, f: FakeState, caller: Token, action: Action, now: Time, settings: nat)
    requires action.RevokeToken? && caller.user in t.users && caller.user in f.users && caller.id in f.tokens
    requires var id := action.tokenId;
             AgentById(t.tokens, id) <==> id in f.tokens && f.tokens[id].kind.Agent? && !f.tokens[id].revoked
    ensures var id := action.tokenId;
            if AgentById(t.tokens, id) then
              Perform(t, caller, action, now, settings) == (t.(tokens := RevokeById(t.tokens, id)), Done)
              && FakePerform(f, caller, action, now) == (FakeRevoke(f, id), Done)
            else
              Perform(t, caller, action, now, settings) == (t, NO_TOKEN)
              && FakePerform(f, caller, action, now) == (f, NO_TOKEN)
  {
  }

  lemma TokenRevocationsAgree(t: Tables, f: FakeState, met: Met, caller: Token, action: Action, now: Time,
                              settings: nat)
    requires Acting(t, f, met, caller, action, now) && action.RevokeToken?
    ensures ActionAgrees(t, f, met, caller, action, now, settings)
  {
    AgentFound(t, f, action.tokenId, met);
    TokenRevocationResults(t, f, caller, action, now, settings);
    if AgentById(t.tokens, action.tokenId) { RevocationsAgree(t, f, action.tokenId, met); }
  }

  predicate Removable(t: Tables, user: Id) {
    user in t.users && |t.users| > 1
  }

  lemma UserRemovalResults(t: Tables, f: FakeState, caller: Token, action: Action, now: Time, settings: nat)
    requires t.users.Keys == f.users.Keys && |t.users| == |f.users| && action.DeleteUser?
    requires caller.user in t.users && caller.user in f.users && caller.id in f.tokens
    ensures var done := Removable(t, action.deleted);
            var reply := if action.deleted in t.users then LAST_USER else NO_USER;
            Perform(t, caller, action, now, settings)
            == (if done then (RemoveUser(t, action.deleted), Done) else (t, reply))
            && FakePerform(f, caller, action, now)
               == if done then (FakeRemoveUser(f, action.deleted), Done) else (f, reply)
  {
  }

  lemma UserRemovalsAgree(t: Tables, f: FakeState, met: Met, caller: Token, action: Action, now: Time, settings: nat)
    requires Acting(t, f, met, caller, action, now) && action.DeleteUser?
    ensures ActionAgrees(t, f, met, caller, action, now, settings)
  {
    NamesAgree(t, f);
    UserRemovalResults(t, f, caller, action, now, settings);
    if Removable(t, action.deleted) { RemovalsAgree(t, f, action.deleted, met); }
  }

  lemma UserCreationResults(t: Tables, f: FakeState, caller: Token, action: Action, now: Time, settings: nat)
    requires Names(t.users) == FakeNames(f.users) && action.CreateUser?
    requires caller.user in t.users && caller.user in f.users && caller.id in f.tokens
    ensures var (id, name) := (action.userId, action.username);
            var taken := Named(Names(t.users), name).Some?;
            var (t', f') := WithUser(t, f, action, settings);
            Perform(t, caller, action, now, settings) == (if taken then (t, USER_EXISTS) else (t', UserMade(id, name)))
            && FakePerform(f, caller, action, now) == if taken then (f, USER_EXISTS) else (f', UserMade(id, name))
  {
  }

  lemma UserCreationsAgree(t: Tables, f: FakeState, met: Met, caller: Token, action: Action, now: Time, settings: nat)
    requires Acting(t, f, met, caller, action, now) && action.CreateUser?
    ensures ActionAgrees(t, f, met, caller, action, now, settings)
  {
    var (t', a) := Perform(t, caller, action, now, settings);
    var (f', b) := FakePerform(f, caller, action, now);
    assert a == b && ((t' == t && f' == f) || (t', f') == WithUser(t, f, action, settings)) by {
      NamesAgree(t, f);
      UserCreationResults(t, f, caller, action, now, settings);
    }
    NewUsersAgree(t, f, action, met, settings);
  }

  lemma AgentActionsAgree(t: Tables, f: FakeState, met: Met, caller: Token, action: Action, now: Time, settings: nat)
    requires Acting(t, f, met, caller, action, now) && AnyToken(action)
    ensures ActionAgrees(t, f, met, caller, action, now, settings)
  {
    assert UsersAgree(t, f);
  }

  lemma ListActionsAgree(t: Tables, f: FakeState, met: Met, caller: Token, action: Action, now: Time, settings: nat)
    requires Acting(t, f, met, caller, action, now) && (action.ListTokens? || action.ListUsers?)
    ensures ActionAgrees(t, f, met, caller, action, now, settings)
  {
    var ours, theirs := Perform(t, caller, action, now, settings), FakePerform(f, caller, action, now);
    assert ours.0 == t && theirs.0 == f;
    if action.ListTokens? { AgentListsAgree(t, f, met); } else { NamesAgree(t, f); }
  }

  lemma ActionsAgree(t: Tables, f: FakeState, met: Met, caller: Token, action: Action, now: Time, settings: nat)
    requires Acting(t, f, met, caller, action, now)
    ensures ActionAgrees(t, f, met, caller, action, now, settings)
  {
    match action
    case Logout => LogoutsAgree(t, f, met, caller, action, now, settings);
    case ChangePassword(_, new_) =>
      PasswordActionsAgree(t, f, met, caller, action, now, settings);
    case CreateToken(_, _, _, _) => CreationsAgree(t, f, met, caller, action, now, settings);
    case RevokeToken(_) => TokenRevocationsAgree(t, f, met, caller, action, now, settings);
    case _ => OtherActionsAgree(t, f, met, caller, action, now, settings);
  }

  lemma OtherActionsAgree(t: Tables, f: FakeState, met: Met, caller: Token, action: Action, now: Time, settings: nat)
    requires Acting(t, f, met, caller, action, now)
    requires !action.Logout? && !action.ChangePassword? && !action.CreateToken? && !action.RevokeToken?
    ensures ActionAgrees(t, f, met, caller, action, now, settings)
  {
    match action
    case CreateUser(_, _, _) => UserCreationsAgree(t, f, met, caller, action, now, settings);
    case DeleteUser(_) => UserRemovalsAgree(t, f, met, caller, action, now, settings);
    case _ =>
      if AnyToken(action) {
        AgentActionsAgree(t, f, met, caller, action, now, settings);
      } else {
        ListActionsAgree(t, f, met, caller, action, now, settings);
      }
  }

  ghost predicate Allowed(caller: Token, action: Action) {
    caller.kind.Session? || AnyToken(action)
  }

  /** A request under a bearer is its resolution, then its action. */
  lemma AuthedResults(t: Tables, f: FakeState, c: Timed, settings: nat)
    requires c.call.Authed?
    requires var (t', a) := Resolve(t, c.call.bearer, c.now, c.later);
             var (f', b) := FakeResolve(f, c.call.bearer, c.now, c.later);
             a == b && (b.Some? ==> b.value.user in t'.users && b.value.user in f'.users && b.value.id in f'.tokens)
    ensures var (t', a) := Resolve(t, c.call.bearer, c.now, c.later);
            var (f', b) := FakeResolve(f, c.call.bearer, c.now, c.later);
            if b.Some? && Allowed(b.value, c.call.action) then
              Step(t, c, settings) == Perform(t', b.value, c.call.action, c.now, settings)
              && FakeStep(f, c) == FakePerform(f', b.value, c.call.action, c.now)
            else
              var refusal := if b.None? then UNAUTHORIZED else SESSION_REQUIRED;
              Step(t, c, settings) == (t', refusal) && FakeStep(f, c) == (f', refusal)
  {
  }
}

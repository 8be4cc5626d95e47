/** The two ways the backends part ways, seen in replies. */
module AccountsShown {
  import opened Common
  import opened Iso
  import opened Ordering
  import opened Accounts
  import opened AccountsAgree
  import opened AccountsRuns

  lemma TwoCalls(t: Tables, f: FakeState, c: Timed, d: Timed, settings: nat)
    requires Step(Step(t, c, settings).0, d, settings).1 != FakeStep(FakeStep(f, c).0, d).1
    ensures RunReal(t, [c, d], settings) != RunFake(f, [c, d])
  {
    var t', f' := Step(t, c, settings).0, FakeStep(f, c).0;
    assert [c, d][1..] == [d];
    assert RunReal(t', [d], settings)[0] == Step(t', d, settings).1 && RunFake(f', [d])[0] == FakeStep(f', d).1;
    assert RunReal(t, [c, d], settings)[1] == RunReal(t', [d], settings)[0];
    assert RunFake(f, [c, d])[1] == RunFake(f', [d])[0];
  }

  // ---- a sign-in that let another token slide ----

  /** The earlier of the session's old end and the end the fake has given it. */
  function FirstEnd(token: Token, later: Time): Time
    requires token.expires.Some?
  {
    if Instant(token.expires.value) < Instant(later) then token.expires.value else later
  }

  lemma RealSelf(t: Tables, s: string, now: Time, later: Time, settings: nat)
    requires var k := Sha256Hex(s); k in t.tokens && !t.tokens[k].revoked && t.tokens[k].user in t.users
    ensures Step(t, Timed(Authed(Some(s), TokenSelf), now, later), settings).1.Self?
            <==> !Expired(t.tokens[Sha256Hex(s)], now)
  {
  }

  lemma FakeSelf(f: FakeState, s: string, now: Time, later: Time)
    requires s in f.secrets && f.secrets[s] in f.tokens && f.tokens[f.secrets[s]].id == f.secrets[s]
    requires !f.tokens[f.secrets[s]].revoked && f.tokens[f.secrets[s]].user in f.users
    ensures FakeStep(f, Timed(Authed(Some(s), TokenSelf), now, later)).1.Self?
            <==> !Expired(f.tokens[f.secrets[s]], now)
  {
  }

  /** A slid session shows at the earlier of its two ends: there one backend refuses it and the other does not. */
  lemma SlidSessionShows(t: Tables, f: FakeState, met: Met, c: Timed, settings: nat, then_: Time)
    requires Agree(t, f, met) && FreshCall(f, c.call) && Slides(f, met, c)
    requires f.tokens[f.secrets[c.call.sent.value]].kind.Session?
    requires f.tokens[f.secrets[c.call.sent.value]].expires.Some?
    ensures var end := FirstEnd(f.tokens[f.secrets[c.call.sent.value]], c.later);
            var probe := Timed(Authed(c.call.sent, TokenSelf), end, then_);
            RunReal(t, [c, probe], settings) != RunFake(f, [c, probe])
  {
    var s := c.call.sent.value;
    var token := SlidParts(t, f, met, c, settings);
    var end := FirstEnd(token, c.later);
    var t', f' := Step(t, c, settings).0, FakeStep(f, c).0;
    assert t'.tokens[Sha256Hex(s)].expires == token.expires && f'.tokens[token.id].expires == Some(c.later);
    RealSelf(t', s, end, then_, settings);
    FakeSelf(f', s, end, then_);
    OneEnds(token.expires.value, c.later);
    TwoCalls(t, f, c, Timed(Authed(Some(s), TokenSelf), end, then_), settings);
  }

  /** Of two different ends exactly one is reached at the earlier of them. */
  lemma OneEnds(a: Time, b: Time)
    requires a != b
    ensures var end := if Instant(a) < Instant(b) then a else b;
            Instant(a) <= Instant(end) <==> !(Instant(b) <= Instant(end))
  {
    TextOrderIsTimeOrder(a, b);
  }

  lemma ThreeCalls(t: Tables, f: FakeState, c: Timed, d: Timed, e: Timed, settings: nat)
    requires RunReal(Step(t, c, settings).0, [d, e], settings) != RunFake(FakeStep(f, c).0, [d, e])
    ensures RunReal(t, [c, d, e], settings) != RunFake(f, [c, d, e])
  {
    assert [c, d, e][1..] == [d, e];
    var ours, theirs := RunReal(Step(t, c, settings).0, [d, e], settings), RunFake(FakeStep(f, c).0, [d, e]);
    var a, b := Step(t, c, settings).1, FakeStep(f, c).1;
    assert ([a] + ours)[1..] == ours && ([b] + theirs)[1..] == theirs;
  }

  /** A sign-in adds at most one session, and changes neither a name nor a password. */
  lemma SignInEffect(t: Tables, call: Call, now: Time, later: Time, settings: nat)
    requires call.Login? && Sha256Hex(call.secret) !in t.tokens
    ensures var (t', key) := (SignIn(t, call, now, later, settings).0, Sha256Hex(call.secret));
            t'.users.Keys == t.users.Keys && Names(t'.users) == Names(t.users)
            && (forall u :: u in t.users ==>
                  t'.users[u].username == t.users[u].username && t'.users[u].hash.of == t.users[u].hash.of)
            && t'.tokens - {key} == t.tokens
            && (key in t'.tokens ==> t'.tokens[key].kind.Session? && t'.tokens[key].id == call.id)
  {
    var t' := SignIn(t, call, now, later, settings).0;
    assert t'.tokens - {Sha256Hex(call.secret)} == t.tokens;
  }

  /** What a listing right after a sign-in with a good password shows. */
  lemma RealList(t: Tables, name: string, password: string, id: Id, secret: string, now: Time, later: Time,
                 settings: nat)
    requires Instant(now) < Instant(later) && Named(Names(t.users), name).Some?
    requires var u := Named(Names(t.users), name).value; u in t.users && t.users[u].hash.of == password
    requires Sha256Hex(secret) !in t.tokens && forall k :: k in t.tokens ==> t.tokens[k].id != id
    ensures var t' := Step(t, Timed(Login(None, name, password, id, secret), now, later), settings).0;
            Step(t', Timed(Authed(Some(secret), ListTokens), now, later), settings).1
            == Tokens(InOrder(AgentTokens(t), TextBefore))
  {
    var call := Login(None, name, password, id, secret);
    var u := Named(Names(t.users), name).value;
    var t' := SignIn(t, call, now, later, settings).0;
    SignInEffect(t, call, now, later, settings);
    AgentTokensSame(t, t');
    assert t'.tokens[Sha256Hex(secret)] == NewSession(id, u, now, later);
    forall k | k in t'.tokens && k != Sha256Hex(secret) ensures t'.tokens[k].id != id {
      assert k in t'.tokens - {Sha256Hex(secret)} && t'.tokens[k] == t.tokens[k];
    }
    RealListOf(t', NewSession(id, u, now, later), secret, now, later, settings);
  }

  lemma RealListOf(t: Tables, session: Token, secret: string, now: Time, later: Time, settings: nat)
    requires Sha256Hex(secret) in t.tokens && t.tokens[Sha256Hex(secret)] == session
    requires Live(session, now) && session.kind.Session? && session.user in t.users
    requires forall k :: k in t.tokens && k != Sha256Hex(secret) ==> t.tokens[k].id != session.id
    ensures Step(t, Timed(Authed(Some(secret), ListTokens), now, later), settings).1
            == Tokens(InOrder(AgentTokens(t), TextBefore))
  {
    var t' := t.(tokens := TouchById(t.tokens, session.id, now, later));
    assert Resolve(t, Some(secret), now, later) == (t', Some(Touch(session, now, later)));
    ListReply(t, t', Touch(session, now, later), secret, now, later, settings);
    AgentTokensSame(t, t');
  }

  lemma ListReply(t: Tables, t': Tables, caller: Token, secret: string, now: Time, later: Time, settings: nat)
    requires Resolve(t, Some(secret), now, later) == (t', Some(caller)) && caller.kind.Session?
    ensures Step(t, Timed(Authed(Some(secret), ListTokens), now, later), settings).1
            == Tokens(InOrder(AgentTokens(t'), TextBefore))
  {
    var _ := Perform(t', caller, ListTokens, now, settings);
  }

  lemma AgentTokensSame(t: Tables, t': Tables)
    requires t'.users.Keys == t.users.Keys && forall u :: u in t.users ==> t'.users[u].username == t.users[u].username
    requires forall k :: k in t.tokens && t.tokens[k].kind.Agent? ==> k in t'.tokens && t'.tokens[k] == t.tokens[k]
    requires forall k :: k in t'.tokens && t'.tokens[k].kind.Agent? ==> k in t.tokens && t.tokens[k] == t'.tokens[k]
    ensures AgentTokens(t') == AgentTokens(t)
  {
    forall k | k in t.tokens && t.tokens[k].kind.Agent? && !t.tokens[k].revoked && t.tokens[k].user in t.users
      ensures Public(t.tokens[k], t.users[t.tokens[k].user].username) in AgentTokens(t')
    {
      assert t'.tokens[k] == t.tokens[k];
    }
    forall k | k in t'.tokens && t'.tokens[k].kind.Agent? && !t'.tokens[k].revoked && t'.tokens[k].user in t'.users
      ensures Public(t'.tokens[k], t'.users[t'.tokens[k].user].username) in AgentTokens(t)
    {
      assert t.tokens[k] == t'.tokens[k];
    }
  }

  lemma FakeList(f: FakeState, name: string, password: string, id: Id, secret: string, now: Time, later: Time)
    requires Instant(now) < Instant(later) && Named(FakeNames(f.users), name).Some?
    requires var u := Named(FakeNames(f.users), name).value; u in f.users && f.users[u].password == password
    requires id !in f.tokens && secret !in f.secrets
    ensures var f' := FakeStep(f, Timed(Login(None, name, password, id, secret), now, later)).0;
            FakeStep(f', Timed(Authed(Some(secret), ListTokens), now, later)).1
            == Tokens(InOrder(FakeAgentTokens(f), TimeBefore))
  {
    var session := NewSession(id, Named(FakeNames(f.users), name).value, now, later);
    var f' := FakeStep(f, Timed(Login(None, name, password, id, secret), now, later)).0;
    assert f' == FakeStore(f, session, secret);
    FakeAgentTokensSame(f, f');
    FakeListOf(f', session, secret, now, later);
  }

  lemma FakeListOf(f: FakeState, session: Token, secret: string, now: Time, later: Time)
    requires secret in f.secrets && f.secrets[secret] == session.id && session.id in f.tokens
    requires f.tokens[session.id] == session && Live(session, now) && session.kind.Session? && session.user in f.users
    ensures FakeStep(f, Timed(Authed(Some(secret), ListTokens), now, later)).1
            == Tokens(InOrder(FakeAgentTokens(f), TimeBefore))
  {
    var f' := f.(tokens := f.tokens[session.id := Touch(session, now, later)]);
    assert FakeResolve(f, Some(secret), now, later) == (f', Some(Touch(session, now, later)));
    FakeListReply(f, f', Touch(session, now, later), secret, now, later);
    FakeAgentTokensSame(f, f');
  }

  lemma FakeListReply(f: FakeState, f': FakeState, caller: Token, secret: string, now: Time, later: Time)
    requires FakeResolve(f, Some(secret), now, later) == (f', Some(caller)) && caller.kind.Session?
    requires caller.user in f'.users && caller.id in f'.tokens
    ensures FakeStep(f, Timed(Authed(Some(secret), ListTokens), now, later)).1
            == Tokens(InOrder(FakeAgentTokens(f'), TimeBefore))
  {
    var _ := FakePerform(f', caller, ListTokens, now);
  }

  lemma FakeAgentTokensSame(f: FakeState, f': FakeState)
    requires f'.users == f.users
    requires forall i :: i in f.tokens && f.tokens[i].kind.Agent? ==> i in f'.tokens && f'.tokens[i] == f.tokens[i]
    requires forall i :: i in f'.tokens && f'.tokens[i].kind.Agent? ==> i in f.tokens && f.tokens[i] == f'.tokens[i]
    ensures FakeAgentTokens(f') == FakeAgentTokens(f)
  {
    forall i | i in f.tokens && f.tokens[i].kind.Agent? && !f.tokens[i].revoked && f.tokens[i].user in f.users
      ensures Public(f.tokens[i], f.users[f.tokens[i].user].username) in FakeAgentTokens(f')
    {
      assert f'.tokens[i] == f.tokens[i];
    }
    forall i | i in f'.tokens && f'.tokens[i].kind.Agent? && !f'.tokens[i].revoked && f'.tokens[i].user in f'.users
      ensures Public(f'.tokens[i], f'.users[f'.tokens[i].user].username) in FakeAgentTokens(f)
    {
      assert f.tokens[i] == f'.tokens[i];
    }
  }

  lemma SignInKeepsIds(f: FakeState, c: Timed)
    requires c.call.Login? && forall i :: i in f.tokens ==> f.tokens[i].id == i
    ensures var f' := FakeStep(f, c).0; forall i :: i in f'.tokens ==> f'.tokens[i].id == i
  {
  }

  /** The slid agent token is in the fake's list with the time of the sign-in, and in the real list it is not. */
  lemma ListsPart(t: Tables, f: FakeState, met: Met, c: Timed, settings: nat)
    requires Agree(t, f, met) && FreshCall(f, c.call) && Slides(f, met, c)
    requires f.tokens[f.secrets[c.call.sent.value]].kind.Agent?
    ensures var (t', f') := (Step(t, c, settings).0, FakeStep(f, c).0);
            InOrder(AgentTokens(t'), TextBefore) != InOrder(FakeAgentTokens(f'), TimeBefore)
  {
    var token := SlidParts(t, f, met, c, settings);
    var t', f' := Step(t, c, settings).0, FakeStep(f, c).0;
    IdsMatch(t, f, met);
    SignInKeepsIds(f, c);
    SignInAddsNoAgent(t, f, met, c, settings);
    AgentListsAgree(t, f, met);
    FakeIdsDiffer(t, f, met);
    OrdersAgree(AgentTokens(t'));
    OrdersAgree(FakeAgentTokens(f'));
    var shown := Public(f'.tokens[token.id], f'.users[token.user].username);
    assert shown in FakeAgentTokens(f') && shown !in FakeAgentTokens(f);
    assert shown in InOrder(FakeAgentTokens(f'), TextBefore) && shown !in InOrder(AgentTokens(t'), TextBefore);
  }

  lemma SignInAddsNoAgent(t: Tables, f: FakeState, met: Met, c: Timed, settings: nat)
    requires Agree(t, f, met) && FreshCall(f, c.call) && c.call.Login?
    ensures AgentTokens(Step(t, c, settings).0) == AgentTokens(t)
  {
    var t' := SignIn(t, c.call, c.now, c.later, settings).0;
    SecretUnused(t, f, met, c.call);
    SignInEffect(t, c.call, c.now, c.later, settings);
    forall k | k in t.tokens ensures k in t'.tokens && t'.tokens[k] == t.tokens[k] {
      assert k in t'.tokens - {Sha256Hex(c.call.secret)};
    }
    AgentTokensSame(t, t');
  }

  lemma SecretUnused(t: Tables, f: FakeState, met: Met, call: Call)
    requires Agree(t, f, met) && FreshCall(f, call) && call.Login?
    ensures Sha256Hex(call.secret) !in t.tokens && forall k :: k in t.tokens ==> t.tokens[k].id != call.id
  {
    forall k | k in t.tokens ensures k.of in f.secrets && t.tokens[k].id == f.secrets[k.of] {
      assert Sha256Hex(k.of) == k && TokenAgrees(t, f, met, k.of);
    }
  }

  /** A slid agent token shows in the list of tokens, to anybody who signs in right after. */
  lemma SlidAgentShows(t: Tables, f: FakeState, met: Met, c: Timed, settings: nat, name: string, password: string,
                       id: Id, secret: string)
    requires Agree(t, f, met) && FreshCall(f, c.call) && Slides(f, met, c) && Instant(c.now) < Instant(c.later)
    requires f.tokens[f.secrets[c.call.sent.value]].kind.Agent?
    requires Named(FakeNames(f.users), name).Some?
    requires var u := Named(FakeNames(f.users), name).value; u in f.users && f.users[u].password == password
    requires FreshCall(FakeStep(f, c).0, Login(None, name, password, id, secret))
    ensures var signIn := Timed(Login(None, name, password, id, secret), c.now, c.later);
            var list := Timed(Authed(Some(secret), ListTokens), c.now, c.later);
            RunReal(t, [c, signIn, list], settings) != RunFake(f, [c, signIn, list])
  {
    var signIn := Timed(Login(None, name, password, id, secret), c.now, c.later);
    var list := Timed(Authed(Some(secret), ListTokens), c.now, c.later);
    var t', f' := Step(t, c, settings).0, FakeStep(f, c).0;
    ListsPart(t, f, met, c, settings);
    StillOpens(t, f, met, c, settings, name, password, id, secret);
    RealList(t', name, password, id, secret, c.now, c.later, settings);
    FakeList(f', name, password, id, secret, c.now, c.later);
    TwoCalls(t', f', signIn, list, settings);
    ThreeCalls(t, f, c, signIn, list, settings);
  }

  lemma StillOpens(t: Tables, f: FakeState, met: Met, c: Timed, settings: nat, name: string, password: string,
                   id: Id, secret: string)
    requires Agree(t, f, met) && FreshCall(f, c.call) && Slides(f, met, c)
    requires Named(FakeNames(f.users), name).Some?
    requires var u := Named(FakeNames(f.users), name).value; u in f.users && f.users[u].password == password
    requires FreshCall(FakeStep(f, c).0, Login(None, name, password, id, secret))
    ensures var (t', f') := (Step(t, c, settings).0, FakeStep(f, c).0);
            f'.users == f.users && Named(Names(t'.users), name) == Named(FakeNames(f.users), name)
            && t'.users[Named(FakeNames(f.users), name).value].hash.of == password
            && Sha256Hex(secret) !in t'.tokens && forall k :: k in t'.tokens ==> t'.tokens[k].id != id
  {
    NamesAgree(t, f);
    assert UsersAgree(t, f);
    SentEffect(t, f, met, c);
    SecretUnused(t, f, met, c.call);
    SignInEffect(t, c.call, c.now, c.later, settings);
    var (t', f') := (Step(t, c, settings).0, FakeStep(f, c).0);
    forall k | k in t'.tokens ensures k.of in f'.secrets && t'.tokens[k].id in f'.tokens {
      IssuedStays(t, f, met, c, settings, k);
    }
  }

  /** Whatever row the real table has after a sign-in, the fake has its secret and its id. */
  lemma IssuedStays(t: Tables, f: FakeState, met: Met, c: Timed, settings: nat, k: Key)
    requires Agree(t, f, met) && FreshCall(f, c.call) && c.call.Login? && k in Step(t, c, settings).0.tokens
    ensures k.of in FakeStep(f, c).0.secrets && Step(t, c, settings).0.tokens[k].id in FakeStep(f, c).0.tokens
  {
    assert Sha256Hex(k.of) == k;
    if k in t.tokens {
      var g := FakeResolve(f, c.call.sent, c.now, c.later).0;
      SentEffect(t, f, met, c);
      assert TokenAgrees(t, f, met, k.of);
      SignInKeepsTokens(t, g, c, settings, k.of);
    } else {
      IssuedIsNew(t, f, met, c, settings, k);
    }
  }

  lemma IssuedIsNew(t: Tables, f: FakeState, met: Met, c: Timed, settings: nat, k: Key)
    requires Agree(t, f, met) && c.call.Login? && k !in t.tokens && k in Step(t, c, settings).0.tokens
    ensures k.of in FakeStep(f, c).0.secrets && Step(t, c, settings).0.tokens[k].id in FakeStep(f, c).0.tokens
  {
    NamesAgree(t, f);
    assert UsersAgree(t, f);
  }

  // ---- a clock that runs back over a session's end ----

  /** What meets a session past its end: a presentation, or a restart. */
  predicate Meets(call: Call, secret: string) {
    call == Restart || (call.Authed? && call.bearer == Some(secret) && call.action.TokenSelf?)
  }

  lemma MeetingRevives(f: FakeState, c: Timed, s: string, d: Timed)
    requires Meets(c.call, s) && s in f.secrets && f.secrets[s] in f.tokens
    requires !f.tokens[f.secrets[s]].revoked && Expired(f.tokens[f.secrets[s]], c.now)
    requires d.call == Authed(Some(s), TokenSelf) && Live(f.tokens[f.secrets[s]], d.now)
    ensures FreshCall(f, c.call) && FakeStep(f, c).0 == f && SomeRevival(f, {}, [c, d]) && Proper(f, {}, [c, d])
  {
    assert s in Lapsed(f, c.now) && s in MetAfter(f, {}, c);
    assert [c, d][1..] == [d] && [d][1..] == [];
  }

  /** Sign in; let the clock pass the session's end and the secret be presented, or the service start again; set the
      clock back and present the secret: the last reply differs. */
  lemma ClockBackShows(user: Id, username: string, password: string, id: Id, secret: string, start: Time, end: Time,
                       met: Call, settings: nat)
    requires Instant(start) < Instant(end) && Meets(met, secret)
    ensures var signIn := Timed(Login(None, username, password, id, secret), start, end);
            var last := Timed(Authed(Some(secret), TokenSelf), start, end);
            var calls := [signIn, Timed(met, end, end), last];
            RunReal(FirstTables(user, username, password, settings), calls, settings)
            != RunFake(FirstFake(user, username, password), calls)
  {
    var f := FirstFake(user, username, password);
    var signIn := Timed(Login(None, username, password, id, secret), start, end);
    var last := Timed(Authed(Some(secret), TokenSelf), start, end);
    var calls := [signIn, Timed(met, end, end), last];
    assert FakeNames(f.users) == map[user := username] && FakeNames(f.users)[user] == username;
    var f' := FakeStep(f, signIn).0;
    assert f' == FakeStore(f, NewSession(id, user, start, end), secret);
    MeetingRevives(f', calls[1], secret, last);
    assert calls[1..] == [calls[1], last];
    AccountsDifferExactly(user, username, password, calls, settings);
  }
}

/** Runs of calls on both sides, under any clock: when exactly the replies are the same. */
module AccountsRuns {
  import opened Common
  import opened Iso
  import opened Accounts
  import opened AccountsAgree

  // ---- a request under a bearer ----

  predicate Revives(f: FakeState, met: Met, c: Timed) {
    c.call.Authed? && Revived(f, met, c.call.bearer, c.now)
  }

  /** The secrets the real backend has met past their end once a call is done. */
  function MetAfter(f: FakeState, met: Met, c: Timed): Met {
    match c.call
    case Restart => met + Lapsed(f, c.now)
    case Authed(bearer, _) => MetWith(f, met, bearer, c.now)
    case Login(_, _, _, _, _) => met
  }

  lemma AuthedCallsAgree(t: Tables, f: FakeState, met: Met, c: Timed, settings: nat)
    requires Agree(t, f, met) && FreshCall(f, c.call) && c.call.Authed? && !Revives(f, met, c)
    ensures var (t', a) := Step(t, c, settings);
            var (f', b) := FakeStep(f, c);
            a == b && Agree(t', f', MetAfter(f, met, c))
  {
    var bearer, action := c.call.bearer, c.call.action;
    ResolvesAgree(t, f, met, bearer, c.now, c.later);
    var (t', a) := Resolve(t, bearer, c.now, c.later);
    var (f', b) := FakeResolve(f, bearer, c.now, c.later);
    AuthedResults(t, f, c, settings);
    if b.Some? && Allowed(b.value, action) {
      ActionsAgree(t', f', MetWith(f, met, bearer, c.now), b.value, action, c.now, settings);
    }
  }

  lemma ActionsNeverUnauthorized(f: FakeState, caller: Token, action: Action, now: Time)
    requires caller.user in f.users && caller.id in f.tokens
    ensures FakePerform(f, caller, action, now).1 != UNAUTHORIZED
  {
  }

  /** A revived secret gets 401 from the real backend and something else from the fake. */
  lemma RevivedCallsDiffer(t: Tables, f: FakeState, met: Met, c: Timed, settings: nat)
    requires Agree(t, f, met) && Revives(f, met, c)
    ensures Step(t, c, settings).1 == UNAUTHORIZED != FakeStep(f, c).1
  {
    RevivedPartWays(t, f, met, c.call.bearer, c.now, c.later);
    var (f', b) := FakeResolve(f, c.call.bearer, c.now, c.later);
    ActionsNeverUnauthorized(f', b.value, c.call.action, c.now);
  }

  // ---- a sign-in that comes with a bearer ----

  /** A use at `now` would show: an agent token was not last used at that very moment, a session does not end when
      one begun now would. */
  predicate Aged(token: Token, now: Time, later: Time) {
    if token.kind.Session? then token.expires != Some(later) else token.lastUsed != Some(now)
  }

  /** A sign-in sent along with the bearer of a live token that has aged. The fake counts that as a use and moves
      the token's times; the real backend never looks at the bearer. */
  predicate Slides(f: FakeState, met: Met, c: Timed) {
    c.call.Login? && c.call.sent.Some?
    && var s := c.call.sent.value;
       s in f.secrets && s !in met && f.secrets[s] in f.tokens
       && Live(f.tokens[f.secrets[s]], c.now) && Aged(f.tokens[f.secrets[s]], c.now, c.later)
  }

  /** What resolving the bearer of a sign-in does to the fake. */
  lemma SentEffect(t: Tables, f: FakeState, met: Met, c: Timed)
    requires Agree(t, f, met) && c.call.Login?
    ensures var g := FakeResolve(f, c.call.sent, c.now, c.later).0;
            g.users == f.users && g.secrets == f.secrets && g.tokens.Keys == f.tokens.Keys
            && forall s :: s in f.secrets ==>
                 g.tokens[f.secrets[s]] == if c.call.sent == Some(s) && Live(f.tokens[f.secrets[s]], c.now)
                                           then Touch(f.tokens[f.secrets[s]], c.now, c.later)
                                           else f.tokens[f.secrets[s]]
  {
    var sent := c.call.sent;
    if sent.Some? && sent.value in f.secrets {
      assert TokenAgrees(t, f, met, sent.value);
    }
  }

  /** The guard is exact: resolving the bearer of a sign-in keeps the two in agreement unless it slides. */
  lemma SlidesExactly(t: Tables, f: FakeState, met: Met, c: Timed)
    requires Agree(t, f, met) && c.call.Login?
    ensures Agree(t, FakeResolve(f, c.call.sent, c.now, c.later).0, met) <==> !Slides(f, met, c)
  {
    var g := FakeResolve(f, c.call.sent, c.now, c.later).0;
    SentEffect(t, f, met, c);
    if Slides(f, met, c) {
      assert !TokenAgrees(t, g, met, c.call.sent.value) by { assert TokenAgrees(t, f, met, c.call.sent.value); }
    } else {
      forall s | s in f.secrets ensures TokenAgrees(t, g, met, s) {
        assert TokenAgrees(t, f, met, s);
      }
      TokensAgree(t, f, met, t, g, met);
    }
  }

  lemma SignInIsByName(f: FakeState, g: FakeState, c: Timed)
    requires c.call.Login? && g.users == f.users
    ensures FakeSignIn(g, c.call, c.now, c.later).1 == FakeSignIn(f, c.call, c.now, c.later).1
  {
  }

  /** A sign-in touches no token there is. */
  lemma SignInKeepsTokens(t: Tables, g: FakeState, c: Timed, settings: nat, s: string)
    requires c.call.Login? && FreshCall(g, c.call) && s in g.secrets && g.secrets[s] in g.tokens
    ensures var (t', g') := (SignIn(t, c.call, c.now, c.later, settings).0, FakeSignIn(g, c.call, c.now, c.later).0);
            var k := Sha256Hex(s);
            (k in t'.tokens <==> k in t.tokens) && (k in t.tokens ==> t'.tokens[k] == t.tokens[k])
            && t'.users.Keys == t.users.Keys && g'.users == g.users
            && s in g'.secrets && g'.secrets[s] == g.secrets[s] && g.secrets[s] in g'.tokens
            && g'.tokens[g.secrets[s]] == g.tokens[g.secrets[s]]
  {
  }

  /** A slid token is another one on the two sides, also after the sign-in itself. */
  lemma SlidParts(t: Tables, f: FakeState, met: Met, c: Timed, settings: nat) returns (token: Token)
    requires Agree(t, f, met) && FreshCall(f, c.call) && Slides(f, met, c)
    ensures c.call.sent.value in f.secrets && f.secrets[c.call.sent.value] in f.tokens
    ensures var (s, t', f') := (c.call.sent.value, Step(t, c, settings).0, FakeStep(f, c).0);
            var k := Sha256Hex(s);
            token == f.tokens[f.secrets[s]] && token.user in t'.users && token.user in f'.users
            && k in t'.tokens && Shown(t'.tokens[k]) == Shown(token) && Shaped(t'.tokens[k])
            && s in f'.secrets && f'.secrets[s] == token.id && token.id in f'.tokens
            && f'.tokens[token.id] == Touch(token, c.now, c.later)
  {
    var s := c.call.sent.value;
    assert TokenAgrees(t, f, met, s);
    token := f.tokens[f.secrets[s]];
    SentEffect(t, f, met, c);
    SignInKeepsTokens(t, FakeResolve(f, c.call.sent, c.now, c.later).0, c, settings, s);
  }

  lemma SlidDisagrees(t: Tables, f: FakeState, met: Met, c: Timed, settings: nat)
    requires Agree(t, f, met) && FreshCall(f, c.call) && Slides(f, met, c)
    ensures !Agree(Step(t, c, settings).0, FakeStep(f, c).0, met)
  {
    var _ := SlidParts(t, f, met, c, settings);
    assert !TokenAgrees(Step(t, c, settings).0, FakeStep(f, c).0, met, c.call.sent.value);
  }

  lemma LoginCallsAgree(t: Tables, f: FakeState, met: Met, c: Timed, settings: nat)
    requires Agree(t, f, met) && FreshCall(f, c.call) && c.call.Login?
    ensures var (t', a) := Step(t, c, settings);
            var (f', b) := FakeStep(f, c);
            a == b && (Agree(t', f', met) <==> !Slides(f, met, c))
  {
    var g := FakeResolve(f, c.call.sent, c.now, c.later).0;
    SentEffect(t, f, met, c);
    SignInsAgree(t, f, met, c, settings);
    SignInIsByName(f, g, c);
    SlidesExactly(t, f, met, c);
    if Slides(f, met, c) {
      SlidDisagrees(t, f, met, c, settings);
    } else {
      SignInsAgree(t, g, met, c, settings);
    }
  }

  // ---- each call ----

  /** One call, whatever it is and whatever the clock says. The replies are the same if and only if it does not
      present a secret that the real backend has met past its end and that is live again in the fake; and then
      agreement is kept if and only if it is not a sign-in that lets another token slide. */
  lemma CallsAgree(t: Tables, f: FakeState, met: Met, c: Timed, settings: nat)
    requires Agree(t, f, met) && FreshCall(f, c.call)
    ensures var (t', a) := Step(t, c, settings);
            var (f', b) := FakeStep(f, c);
            (a == b <==> !Revives(f, met, c))
            && (!Revives(f, met, c) ==> (Agree(t', f', MetAfter(f, met, c)) <==> !Slides(f, met, c)))
  {
    match c.call
    case Restart => PurgeAgrees(t, f, met, c.now);
    case Login(_, _, _, _, _) => LoginCallsAgree(t, f, met, c, settings);
    case Authed(_, _) =>
      if Revives(f, met, c) {
        RevivedCallsDiffer(t, f, met, c, settings);
      } else {
        AuthedCallsAgree(t, f, met, c, settings);
      }
  }

  // ---- runs ----

  ghost function RunReal(t: Tables, calls: seq<Timed>, settings: nat): seq<Reply>
    decreases |calls|
  {
    if calls == [] then []
    else var (t', a) := Step(t, calls[0], settings); [a] + RunReal(t', calls[1..], settings)
  }

  ghost function RunFake(f: FakeState, calls: seq<Timed>): seq<Reply>
    decreases |calls|
  {
    if calls == [] then [] else var (f', b) := FakeStep(f, calls[0]); [b] + RunFake(f', calls[1..])
  }

  /** What is drawn at random is fresh, and no sign-in lets another token slide. */
  ghost predicate Proper(f: FakeState, met: Met, calls: seq<Timed>)
    decreases |calls|
  {
    calls == []
    || (FreshCall(f, calls[0].call) && !Slides(f, met, calls[0])
        && Proper(FakeStep(f, calls[0]).0, MetAfter(f, met, calls[0]), calls[1..]))
  }

  /** Some call of the run presents a secret the fake holds live at that moment, although an earlier presentation
      of it, or an earlier restart, met it past its end. */
  ghost predicate SomeRevival(f: FakeState, met: Met, calls: seq<Timed>)
    decreases |calls|
  {
    calls != []
    && (Revives(f, met, calls[0]) || SomeRevival(FakeStep(f, calls[0]).0, MetAfter(f, met, calls[0]), calls[1..]))
  }

  /** Under any clock, the replies of a whole run are the same if and only if no call of it presents a secret that
      a clock running back has revived. */
  lemma {:induction false} RunsAgreeExactly(t: Tables, f: FakeState, met: Met, calls: seq<Timed>, settings: nat)
    requires Agree(t, f, met) && Proper(f, met, calls)
    ensures RunReal(t, calls, settings) == RunFake(f, calls) <==> !SomeRevival(f, met, calls)
    decreases |calls|
  {
    if calls != [] {
      CallsAgree(t, f, met, calls[0], settings);
      var (t', a) := Step(t, calls[0], settings);
      var (f', b) := FakeStep(f, calls[0]);
      var ours, theirs := RunReal(t', calls[1..], settings), RunFake(f', calls[1..]);
      assert ([a] + ours)[0] == a && ([b] + theirs)[0] == b;
      assert ([a] + ours)[1..] == ours && ([b] + theirs)[1..] == theirs;
      if !Revives(f, met, calls[0]) {
        RunsAgreeExactly(t', f', MetAfter(f, met, calls[0]), calls[1..], settings);
      }
    }
  }

  // ---- from the bootstrap account ----

  function FirstTables(user: Id, username: string, password: string, settings: nat): Tables {
    Tables(map[user := User(username, Argon2(password, settings))], map[])
  }

  function FirstFake(user: Id, username: string, password: string): FakeState {
    FakeState(map[user := FakeUser(username, password)], map[], map[])
  }

  lemma FirstAgree(user: Id, username: string, password: string, settings: nat)
    ensures Agree(FirstTables(user, username, password, settings), FirstFake(user, username, password), {})
  {
  }

  /** From one bootstrap account, under any clock: cascade, revoke-on-expired and purge can be told from a flag
      exactly by presenting a revived secret. */
  lemma {:induction false} AccountsDifferExactly(user: Id, username: string, password: string, calls: seq<Timed>,
                                                 settings: nat)
    requires Proper(FirstFake(user, username, password), {}, calls)
    ensures RunReal(FirstTables(user, username, password, settings), calls, settings)
            == RunFake(FirstFake(user, username, password), calls)
            <==> !SomeRevival(FirstFake(user, username, password), {}, calls)
  {
    FirstAgree(user, username, password, settings);
    RunsAgreeExactly(FirstTables(user, username, password, settings), FirstFake(user, username, password), {}, calls,
                     settings);
  }

  // ---- a clock that does not run back ----

  predicate Forward(before: Time, calls: seq<Timed>)
    decreases |calls|
  {
    calls == [] || (Instant(before) <= Instant(calls[0].now) && Forward(calls[0].now, calls[1..]))
  }

  /** What was met past its end is over at `now` and later. */
  ghost predicate Over(f: FakeState, met: Met, now: Time) {
    forall s :: s in met ==>
      s in f.secrets && f.secrets[s] in f.tokens && !Live(f.tokens[f.secrets[s]], now)
  }

  /** A token that is not live is left as it is, or flagged. */
  lemma DeadUntouched(f: FakeState, c: Timed, s: string)
    requires s in f.secrets && f.secrets[s] in f.tokens && !Live(f.tokens[f.secrets[s]], c.now) && FreshCall(f, c.call)
    requires forall i :: i in f.tokens ==> f.tokens[i].id == i
    ensures var f' := FakeStep(f, c).0;
            s in f'.secrets && f'.secrets[s] == f.secrets[s] && f.secrets[s] in f'.tokens
            && (f'.tokens[f.secrets[s]].revoked || f'.tokens[f.secrets[s]] == f.tokens[f.secrets[s]])
  {
  }

  lemma IdsMatch(t: Tables, f: FakeState, met: Met)
    requires Agree(t, f, met)
    ensures forall i :: i in f.tokens ==> f.tokens[i].id == i
  {
    forall i | i in f.tokens ensures f.tokens[i].id == i {
      var s :| s in f.secrets && f.secrets[s] == i;
      assert TokenAgrees(t, f, met, s);
    }
  }

  lemma OverKept(t: Tables, f: FakeState, met: Met, before: Time, c: Timed)
    requires Agree(t, f, met) && Over(f, met, before) && Instant(before) <= Instant(c.now) && FreshCall(f, c.call)
    ensures !Revives(f, met, c) && Over(FakeStep(f, c).0, MetAfter(f, met, c), c.now)
  {
    IdsMatch(t, f, met);
    forall s | s in MetAfter(f, met, c)
      ensures var f' := FakeStep(f, c).0;
              s in f'.secrets && f'.secrets[s] in f'.tokens && !Live(f'.tokens[f'.secrets[s]], c.now)
    {
      DeadUntouched(f, c, s);
    }
  }

  lemma {:induction false} ForwardNeverRevives(t: Tables, f: FakeState, met: Met, before: Time, calls: seq<Timed>,
                                               settings: nat)
    requires Agree(t, f, met) && Proper(f, met, calls) && Over(f, met, before) && Forward(before, calls)
    ensures !SomeRevival(f, met, calls)
    decreases |calls|
  {
    if calls != [] {
      var c := calls[0];
      OverKept(t, f, met, before, c);
      CallsAgree(t, f, met, c, settings);
      ForwardNeverRevives(Step(t, c, settings).0, FakeStep(f, c).0, MetAfter(f, met, c), c.now, calls[1..], settings);
    }
  }

  /** With a clock that does not run back every run gets the same replies. */
  lemma {:induction false} AccountsIdentical(user: Id, username: string, password: string, start: Time,
                                             calls: seq<Timed>, settings: nat)
    requires Proper(FirstFake(user, username, password), {}, calls) && Forward(start, calls)
    ensures RunReal(FirstTables(user, username, password, settings), calls, settings)
            == RunFake(FirstFake(user, username, password), calls)
  {
    FirstAgree(user, username, password, settings);
    ForwardNeverRevives(FirstTables(user, username, password, settings), FirstFake(user, username, password), {},
                        start, calls, settings);
    AccountsDifferExactly(user, username, password, calls, settings);
  }
}

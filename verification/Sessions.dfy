/** When exactly a session resolves, over whole runs of the real tables. */
module Sessions {
  import opened Common
  import opened Iso
  import opened Accounts

  /** Token ids are unique and every token has its owner. */
  ghost predicate TablesOk(t: Tables) {
    (forall j, k :: j in t.tokens && k in t.tokens && j != k ==> t.tokens[j].id != t.tokens[k].id)
    && (forall k :: k in t.tokens ==> t.tokens[k].user in t.users)
  }

  /** What a call draws at random is new to the tables; `s` in particular is not issued a second time. */
  ghost predicate Fresh(t: Tables, call: Call, s: string) {
    match call
    case Login(_, _, _, id, secret) => secret != s && NewId(t, id)
    case Authed(_, CreateToken(_, _, id, secret)) => secret != s && NewId(t, id)
    case _ => true
  }

  ghost predicate NewId(t: Tables, id: Id) {
    forall k :: k in t.tokens ==> t.tokens[k].id != id
  }

  // ---- each call ----

  lemma ResolveKeepsOk(t: Tables, bearer: Option<string>, now: Time, later: Time)
    requires TablesOk(t)
    ensures var t' := Resolve(t, bearer, now, later).0;
            TablesOk(t') && t'.tokens.Keys == t.tokens.Keys
            && forall k :: k in t.tokens ==> t'.tokens[k].id == t.tokens[k].id
  {
  }

  lemma UpdatesKeepOk(t: Tables, t': Tables)
    requires TablesOk(t) && t'.tokens.Keys <= t.tokens.Keys && t.users.Keys <= t'.users.Keys
    requires forall k :: k in t'.tokens ==> t'.tokens[k].id == t.tokens[k].id && t'.tokens[k].user == t.tokens[k].user
    ensures TablesOk(t')
  {
  }

  /** The actions that leave ids and owners of the token rows alone. */
  lemma PerformUpdates(t: Tables, caller: Token, action: Action, now: Time, settings: nat)
    requires caller.user in t.users && !action.CreateToken? && !action.DeleteUser?
    ensures var t' := Perform(t, caller, action, now, settings).0;
            t'.tokens.Keys == t.tokens.Keys && t.users.Keys <= t'.users.Keys
            && forall k :: k in t'.tokens ==>
                 t'.tokens[k].id == t.tokens[k].id && t'.tokens[k].user == t.tokens[k].user
  {
  }

  lemma PerformKeepsOk(t: Tables, caller: Token, action: Action, now: Time, settings: nat)
    requires TablesOk(t) && caller.user in t.users
    requires action.CreateToken? ==> NewId(t, action.id)
    ensures TablesOk(Perform(t, caller, action, now, settings).0)
  {
    var t' := Perform(t, caller, action, now, settings).0;
    if !action.CreateToken? && !action.DeleteUser? {
      PerformUpdates(t, caller, action, now, settings);
      UpdatesKeepOk(t, t');
    }
  }

  lemma StepKeepsOk(t: Tables, c: Timed, settings: nat, s: string)
    requires TablesOk(t) && Fresh(t, c.call, s)
    ensures TablesOk(Step(t, c, settings).0)
  {
    match c.call
    case Restart =>
    case Login(_, _, _, _, _) =>
    case Authed(bearer, action) =>
      ResolveKeepsOk(t, bearer, c.now, c.later);
      var (t', a) := Resolve(t, bearer, c.now, c.later);
      if a.Some? { PerformKeepsOk(t', a.value, action, c.now, settings); }
  }

  lemma PerformKeepsDead(t: Tables, caller: Token, action: Action, now: Time, settings: nat, s: string)
    requires Dead(t, s) && caller.user in t.users && (action.CreateToken? ==> action.secret != s)
    ensures Dead(Perform(t, caller, action, now, settings).0, s)
  {
  }

  lemma StepKeepsDead(t: Tables, c: Timed, settings: nat, s: string)
    requires Dead(t, s) && Fresh(t, c.call, s)
    ensures Dead(Step(t, c, settings).0, s)
  {
    match c.call
    case Restart =>
    case Login(_, _, _, _, _) =>
    case Authed(bearer, action) =>
      var (t', a) := Resolve(t, bearer, c.now, c.later);
      if a.Some? { PerformKeepsDead(t', a.value, action, c.now, settings, s); }
  }

  // ---- refusal is final ----

  ghost predicate AllFresh(t: Tables, calls: seq<Timed>, settings: nat, s: string)
    decreases |calls|
  {
    calls == [] || (Fresh(t, calls[0].call, s) && AllFresh(Step(t, calls[0], settings).0, calls[1..], settings, s))
  }

  ghost function Run(t: Tables, calls: seq<Timed>, settings: nat): Tables
    decreases |calls|
  {
    if calls == [] then t else Run(Step(t, calls[0], settings).0, calls[1..], settings)
  }

  lemma RefusalKills(t: Tables, s: string, now: Time, later: Time)
    requires TablesOk(t) && Resolve(t, Some(s), now, later).1.None?
    ensures Dead(Resolve(t, Some(s), now, later).0, s)
  {
  }

  lemma {:induction false} DeadStaysDead(t: Tables, calls: seq<Timed>, settings: nat, s: string)
    requires Dead(t, s) && AllFresh(t, calls, settings, s)
    ensures Dead(Run(t, calls, settings), s)
    decreases |calls|
  {
    if calls != [] {
      StepKeepsDead(t, calls[0], settings, s);
      DeadStaysDead(Step(t, calls[0], settings).0, calls[1..], settings, s);
    }
  }

  /** Under any clock, even one that runs back, a secret once refused is refused for ever. */
  lemma {:induction false} RefusedOnceRefusedForever(
      t: Tables, s: string, now: Time, later: Time, calls: seq<Timed>, settings: nat, now': Time, later': Time)
    requires TablesOk(t) && Resolve(t, Some(s), now, later).1.None?
    requires AllFresh(Resolve(t, Some(s), now, later).0, calls, settings, s)
    ensures Resolve(Run(Resolve(t, Some(s), now, later).0, calls, settings), Some(s), now', later').1.None?
  {
    RefusalKills(t, s, now, later);
    DeadStaysDead(Resolve(t, Some(s), now, later).0, calls, settings, s);
  }

  // ---- when a session resolves ----

  predicate Presents(c: Timed, s: string) {
    c.call.Authed? && c.call.bearer == Some(s)
  }

  /** The session is stored and runs until `length` after its last activity. */
  ghost predicate Running(t: Tables, s: string, last: int, length: nat) {
    var k := Sha256Hex(s);
    k in t.tokens && t.tokens[k].kind.Session? && !t.tokens[k].revoked
    && t.tokens[k].expires.Some? && Instant(t.tokens[k].expires.value) == last + length
  }

  /** A call that signs the session out: its own sign-out, a password change by another session of its owner,
      or the removal of its owner. */
  ghost predicate Ends(t: Tables, c: Timed, s: string)
    requires Sha256Hex(s) in t.tokens
  {
    c.call.Authed?
    && var (t', a) := Resolve(t, c.call.bearer, c.now, c.later);
       a.Some? && a.value.kind.Session?
       && var session := t.tokens[Sha256Hex(s)];
          match c.call.action
          case Logout => Presents(c, s)
          case ChangePassword(current, _) =>
            !Presents(c, s) && a.value.user == session.user && Verify(t'.users[a.value.user].hash, current)
          case DeleteUser(id) => id == session.user && |t.users| > 1
          case _ => false
  }

  /** No call of the run signs the session out. */
  ghost predicate NeverEnded(t: Tables, calls: seq<Timed>, settings: nat, s: string)
    decreases |calls|
  {
    calls == []
    || ((Sha256Hex(s) in t.tokens ==> !Ends(t, calls[0], s))
        && NeverEnded(Step(t, calls[0], settings).0, calls[1..], settings, s))
  }

  /** Every gap, from sign-in over the presentations in the run to `now`, is shorter than the session. */
  predicate GapsShort(last: int, calls: seq<Timed>, s: string, now: Time, length: nat)
    decreases |calls|
  {
    if calls == [] then Instant(now) - last < length
    else if Presents(calls[0], s) then
      Instant(calls[0].now) - last < length && GapsShort(Instant(calls[0].now), calls[1..], s, now, length)
    else GapsShort(last, calls[1..], s, now, length)
  }

  /** The clock runs forward from `last` over the run to `now`, and each call knows the session length. */
  predicate Forward(last: int, calls: seq<Timed>, now: Time, length: nat)
    decreases |calls|
  {
    if calls == [] then last <= Instant(now)
    else
      last <= Instant(calls[0].now) && Instant(calls[0].later) == Instant(calls[0].now) + length
      && Forward(Instant(calls[0].now), calls[1..], now, length)
  }

  /** A gap that has grown too long never closes. */
  lemma {:induction false} LongGapStays(last: int, time: int, calls: seq<Timed>, s: string, now: Time, length: nat)
    requires time - last >= length && Forward(time, calls, now, length)
    ensures !GapsShort(last, calls, s, now, length)
    decreases |calls|
  {
    if calls != [] && !Presents(calls[0], s) {
      LongGapStays(last, Instant(calls[0].now), calls[1..], s, now, length);
    }
  }

  lemma ResolveOwn(t: Tables, c: Timed, s: string, last: int, length: nat)
    requires TablesOk(t) && Running(t, s, last, length) && Presents(c, s)
    requires Instant(c.later) == Instant(c.now) + length
    ensures var (t', a) := Resolve(t, Some(s), c.now, c.later);
            if Instant(c.now) - last < length
            then a.Some? && Running(t', s, Instant(c.now), length) && a.value.id == t.tokens[Sha256Hex(s)].id
                 && a.value.kind.Session? && a.value.user == t.tokens[Sha256Hex(s)].user
                 && t'.tokens[Sha256Hex(s)] == a.value
            else a.None? && Dead(t', s)
  {
  }

  lemma ResolveOther(t: Tables, bearer: Option<string>, now: Time, later: Time, s: string)
    requires TablesOk(t) && Sha256Hex(s) in t.tokens && bearer != Some(s)
    ensures var (t', a) := Resolve(t, bearer, now, later);
            Sha256Hex(s) in t'.tokens && t'.tokens[Sha256Hex(s)] == t.tokens[Sha256Hex(s)]
            && (a.Some? ==> a.value.id != t.tokens[Sha256Hex(s)].id)
  {
  }

  /** What the action of a resolved caller does to a running session. */
  lemma ActionOnSession(t: Tables, caller: Token, action: Action, now: Time, settings: nat,
                        s: string, last: int, length: nat)
    requires TablesOk(t) && Running(t, s, last, length) && caller.user in t.users
    requires action.CreateToken? ==> action.secret != s && NewId(t, action.id)
    ensures var t' := Perform(t, caller, action, now, settings).0;
            var session := t.tokens[Sha256Hex(s)];
            if (action.Logout? && caller.id == session.id)
               || (action.ChangePassword? && caller.id != session.id && caller.user == session.user
                   && Verify(t.users[caller.user].hash, action.current))
               || (action.DeleteUser? && action.deleted == session.user && |t.users| > 1)
            then Dead(t', s) else Running(t', s, last, length)
  {
  }

  lemma PresentationStep(t: Tables, c: Timed, settings: nat, s: string, last: int, length: nat)
    requires TablesOk(t) && Running(t, s, last, length) && Presents(c, s) && Fresh(t, c.call, s)
    requires Instant(c.later) == Instant(c.now) + length && length > 0
    ensures var t' := Step(t, c, settings).0;
            if Instant(c.now) - last >= length || Ends(t, c, s) then Dead(t', s)
            else Running(t', s, Instant(c.now), length)
  {
    ResolveOwn(t, c, s, last, length);
    var (t', a) := Resolve(t, Some(s), c.now, c.later);
    if a.Some? {
      ResolveKeepsOk(t, Some(s), c.now, c.later);
      ActionOnSession(t', a.value, c.call.action, c.now, settings, s, Instant(c.now), length);
    }
  }

  lemma OtherStep(t: Tables, c: Timed, settings: nat, s: string, last: int, length: nat)
    requires TablesOk(t) && Running(t, s, last, length) && c.call.Authed? && !Presents(c, s) && Fresh(t, c.call, s)
    ensures var t' := Step(t, c, settings).0;
            if Ends(t, c, s) then Dead(t', s) else Running(t', s, last, length)
  {
    ResolveOther(t, c.call.bearer, c.now, c.later, s);
    var (t', a) := Resolve(t, c.call.bearer, c.now, c.later);
    assert Running(t', s, last, length);
    if a.Some? && !(a.value.kind.Agent? && !AnyToken(c.call.action)) {
      ResolveKeepsOk(t, c.call.bearer, c.now, c.later);
      ActionOnSession(t', a.value, c.call.action, c.now, settings, s, last, length);
      assert Step(t, c, settings) == Perform(t', a.value, c.call.action, c.now, settings);
      if a.value.kind.Agent? { assert !Ends(t, c, s); }
    }
  }

  lemma PurgeStep(t: Tables, c: Timed, settings: nat, s: string, last: int, length: nat)
    requires Running(t, s, last, length) && c.call.Restart?
    ensures var t' := Step(t, c, settings).0;
            if Instant(c.now) - last >= length then Dead(t', s) else Running(t', s, last, length)
  {
    TextOrderIsTimeOrder(t.tokens[Sha256Hex(s)].expires.value, c.now);
  }

  lemma SignInStep(t: Tables, c: Timed, settings: nat, s: string, last: int, length: nat)
    requires Running(t, s, last, length) && c.call.Login? && Fresh(t, c.call, s)
    ensures Running(Step(t, c, settings).0, s, last, length)
  {
  }

  /** A sign-in starts such a session, at the moment of the sign-in. */
  lemma SignInStartsSession(t: Tables, c: Timed, settings: nat, length: nat)
    requires TablesOk(t) && c.call.Login? && NewId(t, c.call.id) && Step(t, c, settings).1.SignedIn?
    requires Instant(c.later) == Instant(c.now) + length
    ensures var t' := Step(t, c, settings).0;
            TablesOk(t') && Running(t', c.call.secret, Instant(c.now), length)
  {
  }

  /** With a clock that runs forward, a session resolves at a presentation exactly when nothing has signed it
      out and every gap from sign-in over its presentations is shorter than the session length. Purges,
      revocations of agent tokens, and everybody else's calls change nothing. */
  lemma {:induction false} SessionResolvesExactly(
      t: Tables, s: string, last: int, calls: seq<Timed>, settings: nat, now: Time, later: Time, length: nat)
    requires TablesOk(t) && Running(t, s, last, length) && length > 0
    requires Forward(last, calls, now, length) && AllFresh(t, calls, settings, s)
    ensures Resolve(Run(t, calls, settings), Some(s), now, later).1.Some?
            <==> NeverEnded(t, calls, settings, s) && GapsShort(last, calls, s, now, length)
    decreases |calls|
  {
    SessionFrom(t, s, last, last, calls, settings, now, later, length);
  }

  /** The same from any later time `time` at which the session still runs. */
  lemma {:induction false} SessionFrom(
      t: Tables, s: string, last: int, time: int, calls: seq<Timed>, settings: nat, now: Time, later: Time, length: nat)
    requires TablesOk(t) && Running(t, s, last, length) && length > 0
    requires Forward(time, calls, now, length) && AllFresh(t, calls, settings, s)
    ensures Resolve(Run(t, calls, settings), Some(s), now, later).1.Some?
            <==> NeverEnded(t, calls, settings, s) && GapsShort(last, calls, s, now, length)
    decreases |calls|
  {
    if calls != [] {
      var c := calls[0];
      var t' := Step(t, c, settings).0;
      StepKeepsOk(t, c, settings, s);
      if Presents(c, s) {
        PresentationStep(t, c, settings, s, last, length);
        if Instant(c.now) - last < length && !Ends(t, c, s) {
          SessionFrom(t', s, Instant(c.now), Instant(c.now), calls[1..], settings, now, later, length);
        } else {
          DeadStaysDead(t', calls[1..], settings, s);
        }
      } else if c.call.Authed? && Ends(t, c, s) {
        OtherStep(t, c, settings, s, last, length);
        DeadStaysDead(t', calls[1..], settings, s);
      } else if c.call.Restart? && Instant(c.now) - last >= length {
        PurgeStep(t, c, settings, s, last, length);
        LongGapStays(last, Instant(c.now), calls[1..], s, now, length);
        DeadStaysDead(t', calls[1..], settings, s);
      } else {
        if c.call.Authed? { OtherStep(t, c, settings, s, last, length); }
        if c.call.Restart? { PurgeStep(t, c, settings, s, last, length); }
        if c.call.Login? { SignInStep(t, c, settings, s, last, length); }
        SessionFrom(t', s, last, Instant(c.now), calls[1..], settings, now, later, length);
      }
    }
  }
}

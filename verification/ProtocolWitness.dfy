/** A run in which the real backend's answer at a place in the order is not the fake's. */
module ProtocolWitness {
  import opened Common
  import opened Naming
  import opened Model
  import opened SiteStore
  import opened Locks
  import opened RealBackend
  import opened Protocol
  import Fake = FakeBackend

  const CREATE := Request.CreateSite("a", "a")
  const DELETE := Request.DeleteSite("a", Some("a"))

  /** A site is created; two deletions of it arrive; they take the lock one after the other. */
  const STEPS: seq<Step> := [
    Begin(0, CREATE, [], "n"), Section(0, 0, "n"),
    Begin(1, DELETE, [], "n"), Begin(2, DELETE, [], "n"),
    Section(1, 0, "p"), Section(2, 0, "q")]

  const MADE := Site(Some("a"), map["" := Folder], map[])

  lemma SlugA()
    ensures SlugFromName("a") == Ok("a") && SlugReMatches("a")
  {
    assert IsSlug("a");
    SlugIdempotent("a");
  }

  /** What is known of a state on the way: who waits, what the order is, and the one site. */
  ghost predicate Stands(w: World, waiting: set<TaskId>, log: seq<Event>, site: Site) {
    w.locks.holder == map[] && w.log == log && At(w.sites, "a") == site
    && (forall t :: t in waiting ==>
          t in w.tasks && w.tasks[t].pc == Waiting(None) && w.tasks[t].slug == "a" && t in w.locks.inside
          && w.locks.inside[t] == "a" && w.tasks[t].request == if t == 0 then CREATE else DELETE)
  }

  lemma CreationArrives(cap: nat)
    ensures Enabled(Init(cap), STEPS[0])
    ensures var w := Next(Init(cap), STEPS[0]);
            0 in w.tasks && w.tasks[0].request == CREATE && w.tasks[0].slug == "a" && w.tasks[0].pc == Waiting(None)
            && w == Init(cap).(tasks := map[0 := w.tasks[0]], locks := Enter(NOBODY, 0, "a"))
  {
    SlugA();
    assert BeginPc(Init(cap), CREATE, "n") == Waiting(None);
  }

  lemma CreationWaits(cap: nat, w: World)
    requires 0 in w.tasks && w.tasks[0].request == CREATE && w.tasks[0].slug == "a" && w.tasks[0].pc == Waiting(None)
    requires w == Init(cap).(tasks := map[0 := w.tasks[0]], locks := Enter(NOBODY, 0, "a"))
    ensures Stands(w, {0}, [], ABSENT) && w.tasks.Keys == {0} && w.staging == map[] && w.leaked == {}
            && w.locks.inside == map[0 := "a"]
  {
  }

  lemma Created(w: World)
    requires Stands(w, {0}, [], ABSENT) && w.tasks.Keys == {0} && w.staging == map[] && w.leaked == {}
    requires w.locks.inside == map[0 := "a"]
    ensures Enabled(w, STEPS[1])
    ensures var w' := Next(w, STEPS[1]);
            |w'.log| == 1 && Stands(w', {}, [w'.log[0]], MADE) && w'.log[0].request == CREATE && w'.tasks.Keys == {0}
            && w'.staging == map[] && w'.leaked == {} && w'.cap == w.cap && w'.locks == NOBODY
  {
  }

  lemma DeletionArrives(w: World, t: TaskId)
    requires At(w.sites, "a") == MADE && t !in w.tasks && w.staging == map[] && w.leaked == {}
    ensures var s := Begin(t, DELETE, [], "n");
            Enabled(w, s)
            && var w' := Next(w, s);
               t in w'.tasks && w'.tasks[t].request == DELETE && w'.tasks[t].slug == "a"
               && w'.tasks[t].pc == Waiting(None)
               && w' == w.(tasks := w.tasks[t := w'.tasks[t]], locks := Enter(w.locks, t, "a"))
  {
    DeletionNotRefused(w);
    assert BeginPc(w, DELETE, "n") == Waiting(None);
  }

  lemma DeletionNotRefused(w: World)
    requires At(w.sites, "a") == MADE
    ensures Refusal(w, DELETE) == None
  {
    MadeIsKnown(w.sites);
  }

  lemma MadeIsKnown(sites: Sites)
    requires At(sites, "a") == MADE
    ensures Known(sites, "a")
  {
    SlugA();
  }

  lemma DeletionWaits(w: World, w': World, t: TaskId, waiting: set<TaskId>)
    requires Stands(w, waiting, w.log, MADE) && w.tasks.Keys == waiting + {0} && t !in w.tasks && t != 0
    requires t in w'.tasks && w'.tasks[t].request == DELETE && w'.tasks[t].slug == "a"
    requires w'.tasks[t].pc == Waiting(None)
    requires w' == w.(tasks := w.tasks[t := w'.tasks[t]], locks := Enter(w.locks, t, "a"))
    ensures Stands(w', waiting + {t}, w'.log, MADE) && w'.tasks.Keys == waiting + {0, t}
  {
  }

  lemma FirstDeletes(w: World)
    requires Stands(w, {1, 2}, w.log, MADE) && w.staging == map[] && w.leaked == {}
    ensures Enabled(w, STEPS[4])
    ensures var w' := Next(w, STEPS[4]);
            Stands(w', {2}, w.log + [Event(1, DELETE, "a", NoContent)], ABSENT)
            && w'.staging.Keys == {"p"} && w'.leaked == {} && w'.cap == w.cap
  {
  }

  lemma SecondDeletes(w: World)
    requires Stands(w, {2}, w.log, ABSENT) && w.staging.Keys == {"p"} && w.leaked == {}
    ensures Enabled(w, STEPS[5])
    ensures var w' := Next(w, STEPS[5]);
            w'.log == w.log + [Event(2, DELETE, "a", NoContent)] && w'.cap == w.cap && 2 in w'.tasks
            && w'.tasks[2].pc == Done(NoContent, Ordered(|w.log|))
  {
  }

  lemma FakeDeletesTwice(log: seq<Event>, cap: nat)
    requires log != [] && log[|log| - 1].request == DELETE
    ensures Fake.Handle(Replay(log, cap), DELETE, cap).1 == NOT_FOUND
  {
  }

  /** One more step of the run that leads to a state. */
  ghost predicate Leads(w: World, i: nat, w': World) {
    i < |STEPS| && Enabled(w, STEPS[i]) && w' == Next(w, STEPS[i])
  }

  /** The steps from the i-th on run from `w` to `last`. */
  ghost predicate Reaches(w: World, i: nat, last: World) {
    i <= |STEPS| && Runs(w, STEPS[i..]) && Run(w, STEPS[i..]) == last
  }

  lemma LeadsOn(w: World, i: nat, w': World, last: World)
    requires Leads(w, i, w') && Reaches(w', i + 1, last)
    ensures Reaches(w, i, last)
  {
    assert STEPS[i..][0] == STEPS[i] && STEPS[i..][1..] == STEPS[i + 1..];
  }

  lemma ThreeOn(w: World, i: nat, w1: World, w2: World, w3: World, last: World)
    requires Leads(w, i, w1) && Leads(w1, i + 1, w2) && Leads(w2, i + 2, w3) && Reaches(w3, i + 3, last)
    ensures Reaches(w, i, last)
  {
    LeadsOn(w2, i + 2, w3, last);
    LeadsOn(w1, i + 1, w2, last);
    LeadsOn(w, i, w1, last);
  }

  lemma AtTheEnds(w: World, last: World)
    ensures Reaches(last, 6, last)
    ensures Reaches(w, 0, last) ==> Runs(w, STEPS) && Run(w, STEPS) == last
  {
    assert STEPS[0..] == STEPS && STEPS[6..] == [];
  }

  lemma SiteStands(cap: nat) returns (w1: World, w2: World)
    ensures Leads(Init(cap), 0, w1) && Leads(w1, 1, w2)
    ensures Stands(w2, {}, w2.log, MADE) && |w2.log| == 1 && w2.tasks.Keys == {0}
            && w2.staging == map[] && w2.leaked == {} && w2.cap == cap
  {
    CreationArrives(cap);
    w1 := Next(Init(cap), STEPS[0]);
    CreationWaits(cap, w1);
    Created(w1);
    w2 := Next(w1, STEPS[1]);
  }

  lemma BothWait(w2: World) returns (w3: World, w4: World)
    requires Stands(w2, {}, w2.log, MADE) && w2.tasks.Keys == {0} && w2.staging == map[] && w2.leaked == {}
    ensures Leads(w2, 2, w3) && Leads(w3, 3, w4)
    ensures Stands(w4, {1, 2}, w4.log, MADE) && w4.log == w2.log && w4.staging == map[] && w4.leaked == {}
            && w4.cap == w2.cap
  {
    DeletionArrives(w2, 1);
    w3 := Next(w2, STEPS[2]);
    DeletionWaits(w2, w3, 1, {});
    DeletionArrives(w3, 2);
    w4 := Next(w3, STEPS[3]);
    DeletionWaits(w3, w4, 2, {1});
  }

  lemma BothDelete(w4: World) returns (w5: World, w6: World)
    requires Stands(w4, {1, 2}, w4.log, MADE) && w4.staging == map[] && w4.leaked == {} && |w4.log| == 1
    ensures Leads(w4, 4, w5) && Leads(w5, 5, w6)
    ensures w6.log == w4.log + [Event(1, DELETE, "a", NoContent)] + [Event(2, DELETE, "a", NoContent)]
            && w6.cap == w4.cap && 2 in w6.tasks && w6.tasks[2].pc == Done(NoContent, Ordered(2))
  {
    FirstDeletes(w4);
    w5 := Next(w4, STEPS[4]);
    SecondDeletes(w5);
    w6 := Next(w5, STEPS[5]);
  }

  lemma WholeRun(cap: nat) returns (w6: World)
    ensures Reaches(Init(cap), 0, w6)
    ensures |w6.log| == 3 && w6.log[1].request == DELETE && w6.log[2] == Event(2, DELETE, "a", NoContent)
    ensures 2 in w6.tasks && w6.tasks[2].pc == Done(NoContent, Ordered(2))
  {
    var w1, w2 := SiteStands(cap);
    w6 := DeletionsFollow(w2);
    LeadsOn(w1, 1, w2, w6);
    LeadsOn(Init(cap), 0, w1, w6);
  }

  lemma DeletionsFollow(w2: World) returns (w6: World)
    requires Stands(w2, {}, w2.log, MADE) && |w2.log| == 1 && w2.tasks.Keys == {0}
    requires w2.staging == map[] && w2.leaked == {}
    ensures Reaches(w2, 2, w6)
    ensures |w6.log| == 3 && w6.log[1].request == DELETE && w6.log[2] == Event(2, DELETE, "a", NoContent)
    ensures 2 in w6.tasks && w6.tasks[2].pc == Done(NoContent, Ordered(2))
  {
    var w3, w4 := BothWait(w2);
    var w5;
    w5, w6 := BothDelete(w4);
    AtTheEnds(w6, w6);
    ThreeOn(w3, 3, w4, w5, w6, w6);
    LeadsOn(w2, 2, w3, w6);
  }

  /** The second deletion is answered 204 at its place in the order, where the fake answers 404. */
  lemma SecondDeletionDiffers(cap: nat)
    ensures Runs(Init(cap), STEPS)
    ensures var w := Run(Init(cap), STEPS);
            |w.log| == 3 && 2 in w.tasks && w.tasks[2].pc == Done(NoContent, Ordered(2))
            && w.log[2] == Event(2, DELETE, "a", NoContent)
            && Fake.Handle(Replay(w.log[..2], w.cap), DELETE, w.cap).1 == NOT_FOUND
  {
    var w := WholeRun(cap);
    AtTheEnds(Init(cap), w);
    FakeDeletesTwice(w.log[..2], w.cap);
  }
}

/**
  Which states of the document store can lose an edit (packages/client/src/store.ts).

  Callers may open and release pages whenever they like. An edit is lost when a release discards a
  document that holds it and, by the log, the server does not have it. A store can lose an edit by
  opens and releases exactly when it is not safe, so a run never passes a state that can exactly when
  every step 2 finds all that its document holds with the server.
 */
module StoreRelease {
  import opened Common
  import opened StoreSpec
  import opened StoreTheorems
  import opened StoreSync
  import opened StoreLoss

  // ----- losing an edit

  /** The event drops a document that holds an edit no record since the last loss of the connection carries. */
  ghost predicate Loses(s: State, fate: Fate, ev: Event) {
    exists p, x :: LosesEdit(s, fate, ev, p, x)
  }

  ghost predicate LosesEdit(s: State, fate: Fate, ev: Event, p: Page, x: Edit) {
    p in s.entries && p !in Step(s, fate, ev).entries && x in s.entries[p].doc && !CarriedSince(s.log, p, x)
  }

  ghost predicate LosesOnTheWay(s: State, fate: Fate, evs: seq<Event>)
    decreases |evs|
  {
    evs != [] && (Loses(s, fate, evs[0]) || LosesOnTheWay(Step(s, fate, evs[0]), fate, evs[1..]))
  }

  /** What callers may do at any time: open pages and release handles. */
  predicate ByCallers(evs: seq<Event>) {
    forall ev <- evs :: ev.EvOpen? || ev.EvRelease?
  }

  /** Some sequence of opens and releases loses an edit. */
  ghost predicate CanLose(s: State, fate: Fate) {
    exists evs :: ByCallers(evs) && LosesOnTheWay(s, fate, evs)
  }

  // ----- a safe store loses nothing

  lemma {:induction false} SafeStepLosesNothing(s: State, fate: Fate, ev: Event)
    requires Inv(s) && Traced(s) && Safe(s) && Expected(s, ev)
    ensures !Loses(s, fate, ev)
  {
    hide Inv, Traced, Reading, CarriedSince, Step;
    if Loses(s, fate, ev) {
      var p, x :| LosesEdit(s, fate, ev, p, x);
      OnlyReleaseDiscards(s, fate, ev, p);
      HasIffCarried(s.log, p, x);
      assert false;
    }
  }

  lemma {:induction false} SafeLosesNothing(s: State, fate: Fate, evs: seq<Event>)
    requires Inv(s) && Traced(s) && Safe(s) && ByCallers(evs)
    ensures !LosesOnTheWay(s, fate, evs)
    decreases |evs|
  {
    hide Inv, Traced, Safe, Step, Loses;
    if evs != [] {
      assert evs[0] in evs && forall ev <- evs[1..] :: ev in evs;
      SafeStepLosesNothing(s, fate, evs[0]);
      StepKeeps(s, fate, evs[0]);
      StepTraced(s, fate, evs[0]);
      SafeLosesNothing(Step(s, fate, evs[0]), fate, evs[1..]);
    }
  }

  // ----- a store that is not safe can lose an edit

  /** The document of `p` is taken for synced and holds an edit the server does not have. */
  ghost predicate AtRisk(s: State, p: Page, x: Edit) {
    p in s.entries && s.entries[p].synced && x in s.entries[p].doc && !CarriedSince(s.log, p, x)
  }

  lemma {:induction false} UnsafeIsAtRisk(s: State) returns (p: Page, x: Edit)
    requires !Safe(s)
    ensures AtRisk(s, p, x)
  {
    hide Reading, Has, CarriedSince;
    p :| p in s.entries && s.entries[p].synced && !(s.entries[p].doc <= Has(Reading(s.log), p));
    x :| x in s.entries[p].doc && x !in Has(Reading(s.log), p);
    HasIffCarried(s.log, p, x);
  }

  /** A counted reference is one of an unreleased handle on the entry. */
  lemma {:induction false} SomeHandle(s: State, p: Page) returns (h: nat)
    requires Inv(s) && p in s.entries && s.entries[p].refCount > 0
    ensures h < |s.handles| && s.handles[h].page == p && !s.handles[h].released && OnHeldEntry(s, s.handles[h])
  {
    hide OrderOk, HandlesOk, RequestsOk, SyncOk, EarlyOk, LogOk;
    if forall k :: 0 <= k < |s.handles| ==> !IsLive(s.handles[k], p) {
      NoneLive(s.handles, p);
    }
    h :| h < |s.handles| && IsLive(s.handles[h], p);
  }

  lemma {:induction false} LastReleaseDiscards(s: State, fate: Fate, h: nat)
    requires h < |s.handles| && !s.handles[h].released && OnHeldEntry(s, s.handles[h])
    ensures var p := s.handles[h].page;
      var t, e := Release(s, fate, h), s.entries[p];
      if e.refCount > 1 || !e.synced then t.log == s.log && t.entries == s.entries[p := e.(refCount := e.refCount - 1)]
      else p !in t.entries
  {
    hide WithoutPage;
  }

  /** Releasing the handles on an entry one by one discards it in the end. */
  lemma {:induction false} ReleasesLose(s: State, fate: Fate, p: Page, x: Edit) returns (evs: seq<Event>)
    requires Inv(s) && AtRisk(s, p, x) && s.entries[p].refCount > 0
    ensures ByCallers(evs) && LosesOnTheWay(s, fate, evs)
    decreases s.entries[p].refCount
  {
    hide Inv, CarriedSince, Release;
    var h := SomeHandle(s, p);
    LastReleaseDiscards(s, fate, h);
    var t := Step(s, fate, EvRelease(h));
    if s.entries[p].refCount > 1 {
      StepKeeps(s, fate, EvRelease(h));
      var more := ReleasesLose(t, fate, p, x);
      evs := [EvRelease(h)] + more;
      assert evs[1..] == more;
    } else {
      evs := [EvRelease(h)];
      assert LosesEdit(s, fate, evs[0], p, x);
    }
  }

  lemma {:induction false} OpeningHolds(s: State, fate: Fate, p: Page)
    requires Inv(s) && p in s.entries
    ensures s.entries[p].refCount >= 0
    ensures var t, e := Open(s, fate, p, {}), s.entries[p];
      t.log == s.log && t.entries == s.entries[p := e.(refCount := e.refCount + 1)]
  {
    hide OrderOk, HandlesOk, RequestsOk, SyncOk, EarlyOk, LogOk;
  }

  lemma {:induction false} AtRiskCanLose(s: State, fate: Fate, p: Page, x: Edit)
    requires Inv(s) && AtRisk(s, p, x)
    ensures CanLose(s, fate)
  {
    hide Inv, CarriedSince, Open, ByCallers, LosesOnTheWay;
    OpeningHolds(s, fate, p);
    StepKeeps(s, fate, EvOpen(p, {}));
    var more := ReleasesLose(Step(s, fate, EvOpen(p, {})), fate, p, x);
    OneMore(s, fate, EvOpen(p, {}), more);
    assert ByCallers([EvOpen(p, {})] + more);
  }

  lemma {:induction false} OneMore(s: State, fate: Fate, ev: Event, evs: seq<Event>)
    requires (ev.EvOpen? || ev.EvRelease?) && ByCallers(evs) && LosesOnTheWay(Step(s, fate, ev), fate, evs)
    ensures ByCallers([ev] + evs) && LosesOnTheWay(s, fate, [ev] + evs)
  {
    hide Step, Loses;
    assert ([ev] + evs)[1..] == evs;
  }

  /** A store can lose an edit by opens and releases exactly when it is not safe. */
  lemma {:induction false} SafeIffNothingCanBeLost(s: State, fate: Fate)
    requires Inv(s) && Traced(s)
    ensures Safe(s) <==> !CanLose(s, fate)
  {
    hide Inv, Traced, Safe, ByCallers, LosesOnTheWay;
    if Safe(s) {
      forall evs | ByCallers(evs) ensures !LosesOnTheWay(s, fate, evs) {
        SafeLosesNothing(s, fate, evs);
      }
    } else {
      var p, x := UnsafeIsAtRisk(s);
      AtRiskCanLose(s, fate, p, x);
    }
  }

  // ----- runs

  /** No state of the run can lose an edit. */
  ghost predicate NeverCanLose(s: State, fate: Fate, evs: seq<Event>)
    decreases |evs|
  {
    !CanLose(s, fate) && (evs == [] || NeverCanLose(Step(s, fate, evs[0]), fate, evs[1..]))
  }

  lemma {:induction false} NeverCanLoseIsAlwaysSafe(s: State, fate: Fate, evs: seq<Event>)
    requires Inv(s) && Traced(s) && ExpectedRun(s, fate, evs)
    ensures NeverCanLose(s, fate, evs) <==> AlwaysSafe(s, fate, evs)
    decreases |evs|
  {
    hide Inv, Traced, Safe, Step, CanLose, Expected;
    SafeIffNothingCanBeLost(s, fate);
    if evs != [] {
      StepKeeps(s, fate, evs[0]);
      StepTraced(s, fate, evs[0]);
      NeverCanLoseIsAlwaysSafe(Step(s, fate, evs[0]), fate, evs[1..]);
    }
  }

  /**
    Over every run: none of its states can lose an edit exactly when every step 2 finds all its document holds
    with the server.
   */
  lemma {:induction false} RunLosesNothingIff(fate: Fate, evs: seq<Event>)
    requires ExpectedRun(INITIAL, fate, evs)
    ensures NeverCanLose(INITIAL, fate, evs) <==> CarefulRun(INITIAL, fate, evs)
  {
    hide Inv, Traced, Safe, NeverCanLose, AlwaysSafe, CarefulRun, ExpectedRun;
    InitialOk();
    InitialIsSafe();
    NeverCanLoseIsAlwaysSafe(INITIAL, fate, evs);
    RunSafeIff(INITIAL, fate, evs);
  }

  /** With the server's promise: exactly when no step 2 finds a failed send outstanding. */
  lemma {:induction false} PromisedRunLosesNothingIff(fate: Fate, evs: seq<Event>)
    requires PromisedRun(INITIAL, fate, evs)
    ensures NeverCanLose(INITIAL, fate, evs) <==> DeliveredRun(INITIAL, fate, evs)
  {
    hide Inv, Traced, Safe, NeverCanLose, AlwaysSafe, DeliveredRun, ExpectedRun, PromisedRun;
    InitialOk();
    InitialIsSafe();
    PromisedIsExpected(INITIAL, fate, evs);
    NeverCanLoseIsAlwaysSafe(INITIAL, fate, evs);
    PromisedRunSafeIff(INITIAL, fate, evs);
  }

  lemma {:induction false} PromisedIsExpected(s: State, fate: Fate, evs: seq<Event>)
    requires PromisedRun(s, fate, evs)
    ensures ExpectedRun(s, fate, evs)
    decreases |evs|
  {
    hide Step, Expected, Answered;
    if evs != [] {
      PromisedIsExpected(Step(s, fate, evs[0]), fate, evs[1..]);
    }
  }

  // ----- a run that could have lost an edit and did not

  lemma {:induction false} CarefulPrefix(s: State, fate: Fate, a: seq<Event>, b: seq<Event>)
    requires CarefulRun(s, fate, a + b)
    ensures CarefulRun(s, fate, a)
    decreases |a|
  {
    hide Step, Careful;
    if a != [] {
      assert (a + b)[0] == a[0] && (a + b)[1..] == a[1..] + b;
      CarefulPrefix(Step(s, fate, a[0]), fate, a[1..], b);
    }
  }

  /** Before the first release nothing is discarded. */
  lemma {:induction false} FirstRelease(s: State, fate: Fate, evs: seq<Event>, ev: Event)
    requires forall e <- evs :: !e.EvRelease?
    ensures LosesOnTheWay(s, fate, evs + [ev]) <==> Loses(Run(s, fate, evs), fate, ev)
    decreases |evs|
  {
    hide Step, CarriedSince;
    if evs == [] {
      assert [] + [ev] == [ev] && [ev][1..] == [];
    } else {
      assert (evs + [ev])[0] == evs[0] && (evs + [ev])[1..] == evs[1..] + [ev];
      if Loses(s, fate, evs[0]) {
        var p, x :| LosesEdit(s, fate, evs[0], p, x);
        OnlyReleaseDiscards(s, fate, evs[0], p);
        assert false;
      }
      FirstRelease(Step(s, fate, evs[0]), fate, evs[1..], ev);
    }
  }

  /** The handshake, an empty step 2 and an empty step 1. */
  const LATE: seq<Record> := OPEN + [Named(7, {})] + [Named(7, {})]

  lemma {:induction false} LateReply(fate: Fate, edit: Edit)
    requires fate(6)
    ensures OnStep1(Live7(Synced, true, {edit}, OPEN + [Named(7, {})]), fate, 7, {})
         == Live7(Synced, true, {edit}, LATE + [Attempt(ReplyFrame(7, {edit}), true)])
  {
    assert {edit} - {} == {edit};
  }

  lemma {:induction false} LateReplyShows(edit: Edit)
    ensures edit in Has(Reading(LATE + [Attempt(ReplyFrame(7, {edit}), true)]), "page")
    ensures Has(Reading(OPEN + [Named(7, {})]), "page") == {}
  {
    hide Reading;
    OpenShows();
    ReadingNext(OPEN, Named(7, {}));
    ReadingNext(OPEN + [Named(7, {})], Named(7, {}));
    ReadingNext(LATE, Attempt(ReplyFrame(7, {edit}), true));
  }

  lemma {:induction false} RunOfTwo(s: State, fate: Fate, a: Event, b: Event)
    ensures Run(s, fate, [a]) == Step(s, fate, a)
    ensures Run(s, fate, [a, b]) == Step(Step(s, fate, a), fate, b)
    ensures ExpectedRun(s, fate, [a, b]) <==> Expected(s, a) && Expected(Step(s, fate, a), b)
  {
    hide Step, Expected;
    assert [a][1..] == [] && [a, b][1..] == [b] && [b][1..] == [];
    assert ExpectedRun(Step(s, fate, a), fate, [b]) <==> Expected(Step(s, fate, a), b);
    assert Run(Step(s, fate, a), fate, [b]) == Step(Step(s, fate, a), fate, b);
    assert Run(Step(s, fate, a), fate, []) == Step(s, fate, a);
  }

  lemma {:induction false} LateRuns(fate: Fate, edit: Edit)
    requires Sure(fate)
    ensures Run(INITIAL, fate, Handshake({edit}) + [EvStep2(7, {})])
        == Live7(Synced, true, {edit}, OPEN + [Named(7, {})])
    ensures Run(INITIAL, fate, Handshake({edit}) + [EvStep2(7, {}), EvStep1(7, {})])
         == Live7(Synced, true, {edit}, LATE + [Attempt(ReplyFrame(7, {edit}), true)])
    ensures ExpectedRun(INITIAL, fate, Handshake({edit}) + [EvStep2(7, {}), EvStep1(7, {})])
  {
    hide OnStep1, OnStep2, Reading, Promised, Handshake, Run, ExpectedRun, PromisedRun;
    var s := Live7(Syncing, false, {edit}, OPEN);
    HandshakeRuns(fate, {edit});
    RunConcat(INITIAL, fate, Handshake({edit}), [EvStep2(7, {})]);
    RunConcat(INITIAL, fate, Handshake({edit}), [EvStep2(7, {}), EvStep1(7, {})]);
    RunOfTwo(s, fate, EvStep2(7, {}), EvStep1(7, {}));
    Step2OnLive7(Syncing, {edit}, OPEN);
    LateReply(fate, edit);
    PromisedIsExpected(INITIAL, fate, Handshake({edit}));
    ExpectedConcat(INITIAL, fate, Handshake({edit}), [EvStep2(7, {}), EvStep1(7, {})]);
  }

  lemma {:induction false} ExpectedConcat(s: State, fate: Fate, a: seq<Event>, b: seq<Event>)
    ensures ExpectedRun(s, fate, a + b) <==> ExpectedRun(s, fate, a) && ExpectedRun(Run(s, fate, a), fate, b)
    decreases |a|
  {
    hide Step, Expected;
    if a == [] {
      assert a + b == b;
    } else {
      assert (a + b)[0] == a[0] && (a + b)[1..] == a[1..] + b;
      ExpectedConcat(Step(s, fate, a[0]), fate, a[1..], b);
    }
  }

  /**
    A run whose step 2 is too early, so that a release then would lose the edit, and in which the reply that
    follows hands the edit over: its own release discards the document and loses nothing.
   */
  lemma {:induction false} LateReplySavesTheEdit(edit: Edit)
    ensures var fate: Fate := n => true;
      var early := Handshake({edit}) + [EvStep2(7, {})];
      var late := Handshake({edit}) + [EvStep2(7, {}), EvStep1(7, {})];
      && ExpectedRun(INITIAL, fate, late)
      && !CarefulRun(INITIAL, fate, late)
      && CanLose(Run(INITIAL, fate, early), fate)
      && !CanLose(Run(INITIAL, fate, late), fate)
      && !LosesOnTheWay(INITIAL, fate, late + [EvRelease(0)])
      && Step(Run(INITIAL, fate, late), fate, EvRelease(0)).entries == map[]
  {
    hide Reading, Has, Inv, Traced, CarefulRun, ExpectedRun, Run, LosesOnTheWay, CanLose, CarriedSince;
    var fate: Fate := n => true;
    var early := Handshake({edit}) + [EvStep2(7, {})];
    var late := Handshake({edit}) + [EvStep2(7, {}), EvStep1(7, {})];
    LateRuns(fate, edit);
    LateReplyShows(edit);
    InitialOk();
    InitialIsSafe();
    var s, t := Run(INITIAL, fate, early), Run(INITIAL, fate, late);
    assert late == early + [EvStep1(7, {})];
    ExpectedConcat(INITIAL, fate, early, [EvStep1(7, {})]);
    ExpectedRunTraced(INITIAL, fate, early);
    ExpectedRunTraced(INITIAL, fate, late);
    SafeIffNothingCanBeLost(s, fate);
    SafeIffNothingCanBeLost(t, fate);
    if CarefulRun(INITIAL, fate, late) {
      CarefulPrefix(INITIAL, fate, early, [EvStep1(7, {})]);
      CarefulRunKeeps(INITIAL, fate, early);
    }
    FirstRelease(INITIAL, fate, late, EvRelease(0));
    SafeStepLosesNothing(t, fate, EvRelease(0));
    LastReleaseDiscards(t, fate, 0);
  }

  lemma {:induction false} ExpectedRunTraced(s: State, fate: Fate, evs: seq<Event>)
    requires Inv(s) && Traced(s) && ExpectedRun(s, fate, evs)
    ensures Inv(Run(s, fate, evs)) && Traced(Run(s, fate, evs))
    decreases |evs|
  {
    hide Inv, Traced, Step, Expected, Safe;
    if evs != [] {
      StepKeeps(s, fate, evs[0]);
      StepTraced(s, fate, evs[0]);
      ExpectedRunTraced(Step(s, fate, evs[0]), fate, evs[1..]);
    }
  }
}

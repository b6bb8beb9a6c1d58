/**
  When an edit can be lost (packages/client/src/store.ts, packages/client/src/connection.ts).

  If no send on a ready connection fails, the server's promise about step 2 is enough for every run. Two
  runs show that neither can be dropped: a step 2 before step 1 was answered, and a send that fails
  between that answer and step 2, each let a release discard an edit nobody else has.
 */
module StoreLoss {
  import opened Common
  import opened StoreSpec
  import opened StoreTheorems
  import opened StoreSync

  // ----- sure sends

  /** Every send on a ready connection succeeds. */
  ghost predicate Sure(fate: Fate) {
    forall n :: fate(n)
  }

  /** Nothing was answered on a connection that is not ready, and no update failed after an answer. */
  ghost predicate QuietOk(ready: bool, v: Shown) {
    (!ready ==> v.unsent == map[]) && forall h <- v.unsent :: v.unsent[h] == {}
  }

  ghost predicate Quiet(s: State) {
    QuietOk(s.ready, Reading(s.log))
  }

  lemma {:induction false} QuietRecord(s: State, r: Record)
    requires Quiet(s) && (r.Attempt? ==> r.sent == s.ready)
    ensures Quiet(Noted(s, r))
  {
    hide Reading;
    ReadingNext(s.log, r);
  }

  lemma {:induction false} QuietSend(s: State, fate: Fate, f: Frame)
    requires Quiet(s) && Sure(fate)
    ensures Quiet(Logged(s, fate, f))
  {
    hide Reading;
    QuietRecord(s, Attempt(f, Sends(s, fate)));
  }

  lemma {:induction false} QuietIsLog(s: State, t: State)
    requires Quiet(s) && t.log == s.log && (s.ready ==> t.ready)
    ensures Quiet(t)
  {
  }

  lemma {:induction false} QuietRequest(s: State, fate: Fate, p: Page)
    requires Quiet(s) && Sure(fate) && p in s.entries
    ensures Quiet(RequestOpen(s, fate, p)) && RequestOpen(s, fate, p).ready == s.ready
  {
    hide Quiet, Sure;
    var t := Logged(s, fate, OpenFrame(s.nextRequestId, p));
    QuietSend(s, fate, OpenFrame(s.nextRequestId, p));
    QuietIsLog(t, RequestOpen(s, fate, p));
  }

  lemma {:induction false} QuietRetryAll(s: State, fate: Fate, pages: seq<Page>)
    requires Quiet(s) && Sure(fate)
    ensures Quiet(RetryAll(s, fate, pages)) && RetryAll(s, fate, pages).ready == s.ready
    decreases |pages|
  {
    hide Quiet, Sure, RequestOpen;
    if pages != [] {
      var p := pages[0];
      if p in s.entries && s.entries[p].handle.None? && s.entries[p].requestId.None? {
        var u := Put(s, p, s.entries[p].(status := Opening));
        QuietIsLog(s, u);
        QuietRequest(u, fate, p);
      }
      QuietRetryAll(Retry(s, fate, p), fate, pages[1..]);
    }
  }

  lemma {:induction false} QuietReopenAll(s: State, fate: Fate, pages: seq<Page>)
    requires Quiet(s) && Sure(fate)
    ensures Quiet(ReopenAll(s, fate, pages))
    decreases |pages|
  {
    hide Quiet, Sure, RequestOpen;
    if pages != [] {
      var p := pages[0];
      if p in s.entries {
        var u := Put(s, p, s.entries[p].(handle := None, requestId := None, status := Opening));
        QuietIsLog(s, u);
        QuietRequest(u, fate, p);
      }
      QuietReopenAll(Reopen(s, fate, p), fate, pages[1..]);
    }
  }

  lemma {:induction false} QuietAuthAck(s: State, fate: Fate)
    requires Quiet(s) && Sure(fate)
    ensures Quiet(AuthAck(s, fate))
  {
    hide Quiet, Sure, RetryAll, ReopenAll;
    var t := s.(ready := true, connectedBefore := true);
    QuietIsLog(s, t);
    QuietRetryAll(t, fate, t.order);
    var u := RetryAll(t, fate, t.order);
    QuietIsLog(u, u.(byHandle := map[], byRequest := map[]));
    QuietReopenAll(u.(byHandle := map[], byRequest := map[]), fate, u.order);
  }

  lemma {:induction false} QuietOpen(s: State, fate: Fate, p: Page, stored: set<Edit>)
    requires Quiet(s) && Sure(fate)
    ensures Quiet(Open(s, fate, p, stored))
  {
    hide Quiet, Sure, RequestOpen;
    if p in s.entries {
      QuietIsLog(s, Open(s, fate, p, stored));
    } else {
      var n := s.nextSerial;
      var t := s.(handles := s.handles + [Handle(p, n, false)], order := s.order + [p], nextSerial := n + 1);
      var u := Put(t, p, NewEntry(n, stored));
      QuietIsLog(s, u);
      QuietRequest(u, fate, p);
    }
  }

  lemma {:induction false} QuietRelease(s: State, fate: Fate, h: nat)
    requires Quiet(s) && Sure(fate)
    ensures Quiet(Release(s, fate, h))
  {
    hide Quiet, Sure, WithoutPage;
    var t := Release(s, fate, h);
    if t.log == s.log {
      QuietIsLog(s, t);
    } else {
      var f := CloseFrame(s.entries[s.handles[h].page].handle.value);
      QuietSend(s, fate, f);
      QuietIsLog(Logged(s, fate, f), t);
    }
  }

  lemma {:induction false} QuietFrames(s: State, fate: Fate, ev: Event)
    requires Quiet(s) && Sure(fate)
    requires ev.EvEdit? || ev.EvOpenAck? || ev.EvStep1? || ev.EvStep2? || ev.EvUpdate?
    ensures Quiet(Step(s, fate, ev))
  {
    hide Quiet, Sure, Settled, Received, Unsent;
    var t := Step(s, fate, ev);
    if t.log == s.log {
      QuietIsLog(s, t);
    } else {
      match ev
      case EvEdit(p, edit) =>
        var f := UpdateFrame(s.entries[p].handle.value, {edit});
        QuietSend(s, fate, f);
        QuietIsLog(Logged(s, fate, f), t);
      case EvOpenAck(id, handle, role) =>
        var u := Noted(s, Issued(id, handle));
        QuietRecord(s, Issued(id, handle));
        QuietSend(u, fate, Step1Frame(handle));
        QuietIsLog(Logged(u, fate, Step1Frame(handle)), t);
      case EvStep1(handle, known) =>
        var u, f := Noted(s, Named(handle, known)), ReplyFrame(handle, s.entries[s.byHandle[handle]].doc - known);
        QuietRecord(s, Named(handle, known));
        QuietSend(u, fate, f);
        QuietIsLog(Logged(u, fate, f), t);
      case EvStep2(handle, edits) =>
        QuietRecord(s, Named(handle, edits));
        QuietIsLog(Noted(s, Named(handle, edits)), t);
      case EvUpdate(handle, edits) =>
        QuietRecord(s, Named(handle, edits));
        QuietIsLog(Noted(s, Named(handle, edits)), t);
    }
  }

  lemma {:induction false} QuietDisconnect(s: State)
    requires Quiet(s)
    ensures Quiet(Disconnect(s))
  {
    hide Reading;
    ReadingNext(s.log, Lost);
  }

  lemma {:induction false} QuietStep(s: State, fate: Fate, ev: Event)
    requires Quiet(s) && Sure(fate)
    ensures Quiet(Step(s, fate, ev))
  {
    hide Quiet, Sure, Dropped, Revoked, Disconnect;
    match ev
    case EvOpen(page, stored) => QuietOpen(s, fate, page, stored);
    case EvRelease(h) => QuietRelease(s, fate, h);
    case EvClosed(handle, denied) => QuietIsLog(s, Step(s, fate, ev));
    case EvRoleChanged(handle, role) => QuietIsLog(s, Step(s, fate, ev));
    case EvError(id, denied) => QuietIsLog(s, Step(s, fate, ev));
    case EvDisconnect => QuietDisconnect(s);
    case EvAuthAck => QuietAuthAck(s, fate);
    case EvFatal(denied) =>
      QuietDisconnect(s);
      QuietIsLog(Disconnect(s), Fatal(s, denied));
    case _ => QuietFrames(s, fate, ev);
  }

  lemma {:induction false} QuietIsDelivered(s: State, ev: Event)
    requires Quiet(s)
    ensures Delivered(s, ev)
  {
    hide Reading;
  }

  /** With sure sends, the server's promise makes every run careful, so nothing is lost in it. */
  lemma {:induction false} SureSendsAreCareful(s: State, fate: Fate, evs: seq<Event>)
    requires Inv(s) && Traced(s) && Quiet(s) && Sure(fate) && PromisedRun(s, fate, evs)
    ensures CarefulRun(s, fate, evs)
    decreases |evs|
  {
    hide Inv, Traced, Quiet, Sure, Step, Answered, Careful, Delivered, Expected;
    if evs != [] {
      QuietIsDelivered(s, evs[0]);
      PromisedStep(s, evs[0]);
      QuietStep(s, fate, evs[0]);
      StepKeeps(s, fate, evs[0]);
      StepTraced(s, fate, evs[0]);
      SureSendsAreCareful(Step(s, fate, evs[0]), fate, evs[1..]);
    }
  }

  lemma {:induction false} SureSendsLoseNothing(fate: Fate, evs: seq<Event>, ev: Event, p: Page, x: Edit)
    requires Sure(fate) && PromisedRun(INITIAL, fate, evs) && Expected(Run(INITIAL, fate, evs), ev)
    requires var s := Run(INITIAL, fate, evs);
      p in s.entries && p !in Step(s, fate, ev).entries && x in s.entries[p].doc
    ensures CarriedSince(Run(INITIAL, fate, evs).log, p, x)
  {
    hide Sure, Step, Run, PromisedRun, CarefulRun, CarriedSince, Inv, Traced;
    InitialOk();
    InitialIsSafe();
    SureSendsAreCareful(INITIAL, fate, evs);
    NothingIsLost(Run(INITIAL, fate, evs), fate, ev, p);
  }

  // ----- runs that lose an edit

  /** The document is discarded, and no record of the log carries anything. */
  ghost predicate LosesAll(s: State, fate: Fate, edit: Edit) {
    && "page" in s.entries && s.entries["page"].synced && s.entries["page"].doc == {edit}
    && Release(s, fate, 0).entries == map[]
    && forall r <- Release(s, fate, 0).log ::
         !(r.Named? && edit in r.edits)
         && !(r.Attempt? && r.sent && (r.frame.ReplyFrame? || r.frame.UpdateFrame?) && edit in r.frame.edits)
  }

  function Handshake(edits: set<Edit>): seq<Event> {
    [EvOpen("page", edits), EvAuthAck, EvOpenAck(2, 7, "editor")]
  }

  const OPEN: seq<Record> := [
    Attempt(OpenFrame(1, "page"), false), Attempt(OpenFrame(2, "page"), true),
    Issued(2, 7), Attempt(Step1Frame(7), true)]

  function Live7(status: Status, synced: bool, doc: set<Edit>, log: seq<Record>): State {
    State(
      map["page" := Entry(0, 1, Some(7), Some(2), Some("editor"), status, synced, doc)], ["page"],
      map[7 := "page"], map[], 3, true, true, log, [Handle("page", 0, false)], 1)
  }

  lemma {:induction false} HandshakeRuns(fate: Fate, edits: set<Edit>)
    requires fate(0) && fate(1) && fate(2) && fate(3)
    ensures Run(INITIAL, fate, Handshake(edits)) == Live7(Syncing, false, edits, OPEN)
    ensures PromisedRun(INITIAL, fate, Handshake(edits))
  {
    hide Run, PromisedRun, OnOpenAck, AuthAck, Open;
    var s1, s2 := Open(INITIAL, fate, "page", edits), AuthAck(Open(INITIAL, fate, "page", edits), fate);
    RunOfThree(INITIAL, fate, EvOpen("page", edits), EvAuthAck, EvOpenAck(2, 7, "editor"));
    FirstTwo(fate, edits);
    ThirdIsAck(fate, edits, s2);
  }

  const ASKED: seq<Record> := [Attempt(OpenFrame(1, "page"), false), Attempt(OpenFrame(2, "page"), true)]

  /** The page is opened before the connection is ready, and asked for again when it is. */
  function AskedFor(edits: set<Edit>): State {
    State(
      map["page" := Entry(0, 1, None, Some(2), None, Status.Opening, false, edits)], ["page"],
      map[], map[2 := "page"], 3, true, true, ASKED, [Handle("page", 0, false)], 1)
  }

  lemma {:induction false} FirstTwo(fate: Fate, edits: set<Edit>)
    requires fate(0) && fate(1)
    ensures AuthAck(Open(INITIAL, fate, "page", edits), fate) == AskedFor(edits)
  {
    hide RetryAll;
    var s1 := Open(INITIAL, fate, "page", edits);
    var t := s1.(ready := true, connectedBefore := true);
    RetryOne(t, fate);
    assert [] + [Attempt(OpenFrame(1, "page"), false)] + [Attempt(OpenFrame(2, "page"), true)] == ASKED;
  }

  lemma {:induction false} RetryOne(s: State, fate: Fate)
    requires s.order == ["page"]
    ensures RetryAll(s, fate, s.order) == Retry(s, fate, "page")
  {
    hide Retry;
    assert s.order[1..] == [];
  }

  lemma {:induction false} ThirdIsAck(fate: Fate, edits: set<Edit>, s: State)
    requires fate(3) && s == AskedFor(edits)
    ensures OnOpenAck(s, fate, 2, 7, "editor") == Live7(Syncing, false, edits, OPEN) && s.byHandle == map[]
  {
    assert ASKED + [Issued(2, 7)] + [Attempt(Step1Frame(7), true)] == OPEN;
  }

  lemma {:induction false} RunOfThree(s: State, fate: Fate, a: Event, b: Event, c: Event)
    ensures Run(s, fate, [a, b, c]) == Step(Step(Step(s, fate, a), fate, b), fate, c)
    ensures PromisedRun(s, fate, [a, b, c])
       <==> Promised(s, a) && Promised(Step(s, fate, a), b) && Promised(Step(Step(s, fate, a), fate, b), c)
  {
    hide Step, Promised;
    var s1, s2 := Step(s, fate, a), Step(Step(s, fate, a), fate, b);
    assert [a, b, c][1..] == [b, c] && [b, c][1..] == [c] && [c][1..] == [];
    assert Run(s2, fate, [c]) == Run(Step(s2, fate, c), fate, []);
    assert Run(s1, fate, [b, c]) == Run(s2, fate, [c]);
    assert PromisedRun(s2, fate, [c]) <==> Promised(s2, c);
    assert PromisedRun(s1, fate, [b, c]) <==> Promised(s1, b) && PromisedRun(s2, fate, [c]);
  }

  lemma {:induction false} RunConcat(s: State, fate: Fate, a: seq<Event>, b: seq<Event>)
    ensures Run(s, fate, a + b) == Run(Run(s, fate, a), fate, b)
    ensures PromisedRun(s, fate, a + b) <==> PromisedRun(s, fate, a) && PromisedRun(Run(s, fate, a), fate, b)
    decreases |a|
  {
    hide Step, Promised;
    if a == [] {
      assert a + b == b;
    } else {
      assert (a + b)[0] == a[0] && (a + b)[1..] == a[1..] + b;
      RunConcat(Step(s, fate, a[0]), fate, a[1..], b);
    }
  }

  lemma {:induction false} Step2OnLive7(status: Status, doc: set<Edit>, log: seq<Record>)
    ensures OnStep2(Live7(status, false, doc, log), 7, {}) == Live7(Synced, true, doc, log + [Named(7, {})])
  {
    assert doc + {} == doc;
  }

  lemma {:induction false} Step1OnLive7(fate: Fate, log: seq<Record>)
    requires fate(|log| + 1)
    ensures OnStep1(Live7(Syncing, false, {}, log), fate, 7, {})
         == Live7(Syncing, false, {}, log + [Named(7, {})] + [Attempt(ReplyFrame(7, {}), true)])
  {
    var none: set<Edit> := {};
    assert none - {} == none;
  }

  lemma {:induction false} EditOnLive7(fate: Fate, log: seq<Record>, edit: Edit)
    requires !fate(|log|)
    ensures LocalEdit(Live7(Syncing, false, {}, log), fate, "page", edit)
         == Live7(Offline, false, {edit}, log + [Attempt(UpdateFrame(7, {edit}), false)])
  {
    var none: set<Edit> := {};
    assert none + {edit} == {edit};
  }

  lemma {:induction false} ReleaseOfLive7(fate: Fate, edit: Edit, log: seq<Record>)
    requires forall r <- log ::
      && !(r.Named? && edit in r.edits)
      && !(r.Attempt? && r.sent && (r.frame.ReplyFrame? || r.frame.UpdateFrame?) && edit in r.frame.edits)
    ensures LosesAll(Live7(Synced, true, {edit}, log), fate, edit)
  {
    var s := Live7(Synced, true, {edit}, log);
    var t := Release(s, fate, 0);
    assert t.entries == map[];
    assert t.log == log + [t.log[|log|]] && t.log[|log|].Attempt? && t.log[|log|].frame == CloseFrame(7);
  }

  /** Every send succeeds, and the server's step 2 comes before its step 1 was answered. */
  lemma {:induction false} UnansweredStep2LosesAnEdit(edit: Edit)
    ensures var fate: Fate := n => true;
      var s := Run(INITIAL, fate, Handshake({edit}));
      && PromisedRun(INITIAL, fate, Handshake({edit}))
      && 7 in s.byHandle && !Answered(s, 7)
      && LosesAll(Step(s, fate, EvStep2(7, {})), fate, edit)
  {
    hide Run, PromisedRun, OnStep2, LosesAll, Reading;
    var fate: Fate := n => true;
    HandshakeRuns(fate, {edit});
    OpenShows();
    Step2OnLive7(Syncing, {edit}, OPEN);
    ReleaseOfLive7(fate, edit, OPEN + [Named(7, {})]);
  }

  lemma {:induction false} NothingShown()
    ensures Reading([]) == Shown(map[], map[], map[], map[])
  {
  }

  lemma {:induction false} OpenShows()
    ensures Reading(OPEN) == Shown(map[2 := "page"], map[7 := "page"], map[], map[])
  {
    hide Reading;
    var a, b, c, d := OPEN[0], OPEN[1], OPEN[2], OPEN[3];
    NothingShown();
    ReadingNext([], a);
    assert [] + [a] == [a];
    ReadingNext([a], b);
    assert [a] + [b] == [a, b];
    ReadingNext([a, b], c);
    assert [a, b] + [c] == [a, b, c];
    ReadingNext([a, b, c], d);
    assert [a, b, c] + [d] == OPEN;
  }

  /**
    The server's step 1 is answered; then one update is not sent although the connection is ready, and
    step 2 arrives. Everything the server does is as promised, and the release discards the edit.
   */
  lemma {:induction false} FailedSendLosesAnEdit(edit: Edit)
    ensures var fate: Fate := n => n != 6;
      var evs := Handshake({}) + [EvStep1(7, {}), EvEdit("page", edit), EvStep2(7, {})];
      && PromisedRun(INITIAL, fate, evs)
      && LosesAll(Run(INITIAL, fate, evs), fate, edit)
  {
    hide Run, PromisedRun, Promised, Step, LosesAll, Reading;
    var fate: Fate := n => n != 6;
    var s := Live7(Syncing, false, {}, OPEN);
    HandshakeRuns(fate, {});
    RunConcat(INITIAL, fate, Handshake({}), [EvStep1(7, {}), EvEdit("page", edit), EvStep2(7, {})]);
    RunOfThree(s, fate, EvStep1(7, {}), EvEdit("page", edit), EvStep2(7, {}));
    var log := OPEN + [Named(7, {})] + [Attempt(ReplyFrame(7, {}), true)];
    var more := log + [Attempt(UpdateFrame(7, {edit}), false)];
    LastThree(fate, edit, log, more);
    ReleaseOfLive7(fate, edit, more + [Named(7, {})]);
  }

  lemma {:induction false} LastThree(fate: Fate, edit: Edit, log: seq<Record>, more: seq<Record>)
    requires fate(5) && !fate(6)
    requires log == OPEN + [Named(7, {})] + [Attempt(ReplyFrame(7, {}), true)]
    requires more == log + [Attempt(UpdateFrame(7, {edit}), false)]
    ensures var s := Live7(Syncing, false, {}, OPEN);
      var t := Step(s, fate, EvStep1(7, {}));
      var u := Step(t, fate, EvEdit("page", edit));
      && Promised(s, EvStep1(7, {})) && Promised(t, EvEdit("page", edit)) && Promised(u, EvStep2(7, {}))
      && Step(u, fate, EvStep2(7, {})) == Live7(Synced, true, {edit}, more + [Named(7, {})])
  {
    hide OnStep1, OnStep2, LocalEdit, Reading;
    Step1OnLive7(fate, OPEN);
    EditOnLive7(fate, log, edit);
    FailedShows(edit, log, more);
    Step2OnLive7(Offline, {edit}, more);
  }

  lemma {:induction false} FailedShows(edit: Edit, log: seq<Record>, more: seq<Record>)
    requires log == OPEN + [Named(7, {})] + [Attempt(ReplyFrame(7, {}), true)]
    requires more == log + [Attempt(UpdateFrame(7, {edit}), false)]
    ensures Reading(more) == Shown(map[2 := "page"], map[7 := "page"], map["page" := {}], map[7 := {edit}])
  {
    hide Reading;
    OpenShows();
    ReadingNext(OPEN, Named(7, {}));
    ReadingNext(OPEN + [Named(7, {})], Attempt(ReplyFrame(7, {}), true));
    ReadingNext(log, Attempt(UpdateFrame(7, {edit}), false));
    var none: set<Edit> := {};
    assert none + {} == none && none + {edit} == {edit};
  }
}

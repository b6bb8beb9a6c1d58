/**
  What a held page is, told by the events that happened (packages/client/src/store.ts).

  For every run from the start: the document of a held page is what it was opened with, the local edits made on
  it, and what the server sent for it; and its handle, role, status and flag are what the latest event that
  speaks of them says. The events are read off here one by one, apart from the functions that take the steps.
 */
module StoreEvents {
  import opened Common
  import opened StoreSpec
  import opened StoreTheorems

  // ----- what an event says of a page

  /** The event makes a new entry for the page. */
  predicate Creates(s: State, ev: Event, p: Page) {
    ev.EvOpen? && ev.page == p && p !in s.entries
  }

  /** A frame under this handle is for the page. */
  predicate LiveFor(s: State, h: nat, p: Page) {
    h in s.byHandle && s.byHandle[h] == p
  }

  /** An answer to this request is for the page. */
  predicate AsksFor(s: State, id: nat, p: Page) {
    id in s.byRequest && s.byRequest[id] == p
  }

  /** The edits the event brings into the document of the page. */
  function Brought(s: State, ev: Event, p: Page): set<Edit> {
    match ev
    case EvOpen(page, stored) => if Creates(s, ev, p) then stored else {}
    case EvEdit(page, edit) => if page == p then {edit} else {}
    case EvStep2(h, edits) => if LiveFor(s, h, p) then edits else {}
    case EvUpdate(h, edits) => if LiveFor(s, h, p) then edits else {}
    case _ => {}
  }

  function HandleSaid(s: State, ev: Event, p: Page): Option<Option<nat>> {
    match ev
    case EvOpen(page, stored) => if Creates(s, ev, p) then Some(None) else None
    case EvOpenAck(id, h, role) => if AsksFor(s, id, p) then Some(Some(h)) else None
    case EvClosed(h, denied) => if LiveFor(s, h, p) then Some(None) else None
    case EvAuthAck => if s.connectedBefore then Some(None) else None
    case EvFatal(denied) => Some(None)
    case _ => None
  }

  function RoleSaid(s: State, ev: Event, p: Page): Option<Option<Role>> {
    match ev
    case EvOpen(page, stored) => if Creates(s, ev, p) then Some(None) else None
    case EvOpenAck(id, h, role) => if AsksFor(s, id, p) then Some(Some(role)) else None
    case EvRoleChanged(h, role) => if LiveFor(s, h, p) then Some(Some(role)) else None
    case EvClosed(h, denied) => if LiveFor(s, h, p) then Some(None) else None
    case EvFatal(denied) => Some(None)
    case _ => None
  }

  /** A local edit on the page that does not reach the socket. */
  predicate Unreached(s: State, fate: Fate, ev: Event, p: Page) {
    && ev.EvEdit? && ev.page == p && p in s.entries
    && (s.entries[p].handle.None? || !s.ready || !fate(|s.log|))
  }

  function SyncedSaid(s: State, fate: Fate, ev: Event, p: Page): Option<bool> {
    if Creates(s, ev, p) || Unreached(s, fate, ev, p) || ((ev.EvDisconnect? || ev.EvFatal?) && s.ready) then Some(false)
    else if ev.EvStep2? && LiveFor(s, ev.handle, p) then Some(true)
    else None
  }

  /** Only when the flag was up before the handle came back does something else than a step 2 complete the handshake. */
  predicate Resumes(s: State, ev: Event, p: Page) {
    && ((ev.EvStep1? && LiveFor(s, ev.handle, p)) || (ev.EvUpdate? && LiveFor(s, ev.handle, p)))
    && p in s.entries && s.entries[p].status == Syncing && s.entries[p].synced
  }

  function StatusSaid(s: State, fate: Fate, ev: Event, p: Page): Option<Status> {
    if Creates(s, ev, p) || ev.EvAuthAck? then Some(Opening)
    else if ev.EvOpenAck? && AsksFor(s, ev.id, p) then Some(Syncing)
    else if (ev.EvStep2? && LiveFor(s, ev.handle, p)) || Resumes(s, ev, p) then Some(Synced)
    else if (ev.EvClosed? && LiveFor(s, ev.handle, p)) || (ev.EvError? && ev.id != 0 && AsksFor(s, ev.id, p))
        || ev.EvFatal? then
      Some(if ev.denied then Denied else Offline)
    else if Unreached(s, fate, ev, p) || (ev.EvDisconnect? && s.ready) then Some(Offline)
    else None
  }

  // ----- what a run says

  function Before(fate: Fate, evs: seq<Event>): State
    requires evs != []
  {
    Run(INITIAL, fate, evs[..|evs| - 1])
  }

  /** All that was brought into the document of the page since its entry was made. */
  function DocTold(fate: Fate, evs: seq<Event>, p: Page): set<Edit>
    decreases |evs|
  {
    if evs == [] then {}
    else
      var n := |evs| - 1;
      (if Creates(Before(fate, evs), evs[n], p) then {} else DocTold(fate, evs[..n], p))
        + Brought(Before(fate, evs), evs[n], p)
  }

  function HandleTold(fate: Fate, evs: seq<Event>, p: Page): Option<nat>
    decreases |evs|
  {
    if evs == [] then None
    else
      var n := |evs| - 1;
      var said := HandleSaid(Before(fate, evs), evs[n], p);
      if said.Some? then said.value else HandleTold(fate, evs[..n], p)
  }

  function RoleTold(fate: Fate, evs: seq<Event>, p: Page): Option<Role>
    decreases |evs|
  {
    if evs == [] then None
    else
      var n := |evs| - 1;
      var said := RoleSaid(Before(fate, evs), evs[n], p);
      if said.Some? then said.value else RoleTold(fate, evs[..n], p)
  }

  function SyncedTold(fate: Fate, evs: seq<Event>, p: Page): bool
    decreases |evs|
  {
    if evs == [] then false
    else
      var n := |evs| - 1;
      var said := SyncedSaid(Before(fate, evs), fate, evs[n], p);
      if said.Some? then said.value else SyncedTold(fate, evs[..n], p)
  }

  function StatusTold(fate: Fate, evs: seq<Event>, p: Page): Status
    decreases |evs|
  {
    if evs == [] then Opening
    else
      var n := |evs| - 1;
      var said := StatusSaid(Before(fate, evs), fate, evs[n], p);
      if said.Some? then said.value else StatusTold(fate, evs[..n], p)
  }

  // ----- one step

  function Otherwise<T>(said: Option<T>, before: T): T {
    if said.Some? then said.value else before
  }

  /** The entry after the event is the one before it, changed in what the event says, or the one the event makes. */
  ghost predicate Told(s: State, fate: Fate, ev: Event, p: Page, after: Entry) {
    if Creates(s, ev, p) then
      && after.doc == Brought(s, ev, p) && after.handle == None && after.role == None
      && after.status == Opening && !after.synced
    else
      && p in s.entries
      && var e := s.entries[p];
      && after.doc == e.doc + Brought(s, ev, p)
      && after.handle == Otherwise(HandleSaid(s, ev, p), e.handle)
      && after.role == Otherwise(RoleSaid(s, ev, p), e.role)
      && after.status == Otherwise(StatusSaid(s, fate, ev, p), e.status)
      && after.synced == Otherwise(SyncedSaid(s, fate, ev, p), e.synced)
  }

  /** Nothing said and nothing changed but the count of references. */
  lemma {:induction false} SilentTells(s: State, fate: Fate, ev: Event, p: Page, after: Entry)
    requires p in s.entries && after == s.entries[p].(refCount := after.refCount)
    requires ev.EvRelease? || (ev.EvOpen? && !Creates(s, ev, p))
    ensures Told(s, fate, ev, p, after)
  {
  }

  /** Asking again leaves everything of an entry but the request and, when it was asked for, the status. */
  ghost predicate Asked(e: Entry, e': Entry, asked: bool) {
    e' == e.(requestId := e'.requestId, status := if asked then Opening else e.status)
  }

  lemma {:induction false} RequestOpenAsks(s: State, fate: Fate, q: Page, p: Page)
    requires q in s.entries && p in s.entries
    ensures p in RequestOpen(s, fate, q).entries
    ensures p != q ==> RequestOpen(s, fate, q).entries[p] == s.entries[p]
    ensures s.entries[q].status == Opening ==> Asked(s.entries[q], RequestOpen(s, fate, q).entries[q], true)
  {
  }

  lemma {:induction false} OpenTells(s: State, fate: Fate, page: Page, stored: set<Edit>, p: Page)
    requires p in Open(s, fate, page, stored).entries
    ensures Told(s, fate, EvOpen(page, stored), p, Open(s, fate, page, stored).entries[p])
  {
    hide RequestOpen, Told;
    if page in s.entries {
      SilentTells(s, fate, EvOpen(page, stored), p, Open(s, fate, page, stored).entries[p]);
    } else {
      var n := s.nextSerial;
      var t := s.(handles := s.handles + [Handle(page, n, false)], order := s.order + [page], nextSerial := n + 1);
      var u := Put(t, page, NewEntry(n, stored));
      RequestOpenHolds(u, fate, page);
      RequestOpenAsks(u, fate, page, p);
      if p != page {
        SilentTells(s, fate, EvOpen(page, stored), p, Open(s, fate, page, stored).entries[p]);
      } else {
        NewIsTold(s, fate, page, stored, Open(s, fate, page, stored).entries[p]);
      }
    }
  }

  lemma {:induction false} RequestOpenHolds(s: State, fate: Fate, q: Page)
    requires q in s.entries
    ensures RequestOpen(s, fate, q).entries.Keys == s.entries.Keys
  {
  }

  lemma {:induction false} NewIsTold(s: State, fate: Fate, p: Page, stored: set<Edit>, after: Entry)
    requires p !in s.entries && Asked(NewEntry(s.nextSerial, stored), after, true)
    ensures Told(s, fate, EvOpen(p, stored), p, after)
  {
  }

  lemma {:induction false} ReleaseTells(s: State, fate: Fate, h: nat, p: Page)
    requires p in Release(s, fate, h).entries
    ensures Told(s, fate, EvRelease(h), p, Release(s, fate, h).entries[p])
  {
    hide Told;
    ReleaseCounts(s, fate, h, p);
    SilentTells(s, fate, EvRelease(h), p, Release(s, fate, h).entries[p]);
  }

  lemma {:induction false} ReleaseCounts(s: State, fate: Fate, h: nat, p: Page)
    requires p in Release(s, fate, h).entries
    ensures p in s.entries
    ensures var after := Release(s, fate, h).entries[p]; after == s.entries[p].(refCount := after.refCount)
  {
    hide WithoutPage;
  }

  lemma {:induction false} EditTells(s: State, fate: Fate, page: Page, edit: Edit, p: Page)
    requires p in s.entries
    ensures var t := Step(s, fate, EvEdit(page, edit));
      p in t.entries && Told(s, fate, EvEdit(page, edit), p, t.entries[p])
  {
    hide Told;
    var ev := EvEdit(page, edit);
    if page in s.entries {
      EditChanges(s, fate, page, edit);
    }
    if page == p {
      EditIsTold(s, fate, p, edit, Step(s, fate, ev).entries[p]);
    } else {
      EditElsewhere(s, fate, page, edit, p);
    }
  }

  lemma {:induction false} EditChanges(s: State, fate: Fate, p: Page, edit: Edit)
    requires p in s.entries
    ensures var e := s.entries[p].(doc := s.entries[p].doc + {edit});
      LocalEdit(s, fate, p, edit).entries
        == s.entries[p := if Unreached(s, fate, EvEdit(p, edit), p) then e.(synced := false, status := Offline) else e]
  {
  }

  lemma {:induction false} EditIsTold(s: State, fate: Fate, p: Page, edit: Edit, after: Entry)
    requires p in s.entries
    requires var e := s.entries[p].(doc := s.entries[p].doc + {edit});
      after == if Unreached(s, fate, EvEdit(p, edit), p) then e.(synced := false, status := Offline) else e
    ensures Told(s, fate, EvEdit(p, edit), p, after)
  {
  }

  lemma {:induction false} EditElsewhere(s: State, fate: Fate, page: Page, edit: Edit, p: Page)
    requires p in s.entries && page != p
    ensures Told(s, fate, EvEdit(page, edit), p, s.entries[p])
  {
  }

  lemma {:induction false} AckTells(s: State, fate: Fate, id: nat, h: nat, role: Role, p: Page)
    requires Inv(s) && p in s.entries
    ensures var t := OnOpenAck(s, fate, id, h, role);
      p in t.entries && Told(s, fate, EvOpenAck(id, h, role), p, t.entries[p])
  {
    hide Inv;
    if id in s.byRequest {
      RequestKnown(s, id);
    }
  }

  lemma {:induction false} Step1Tells(s: State, fate: Fate, h: nat, known: set<Edit>, p: Page)
    requires Inv(s) && p in s.entries
    ensures var t := OnStep1(s, fate, h, known); p in t.entries && Told(s, fate, EvStep1(h, known), p, t.entries[p])
  {
    hide Inv;
    if h in s.byHandle {
      HandleKnown(s, h);
    }
  }

  lemma {:induction false} Step2Tells(s: State, fate: Fate, h: nat, edits: set<Edit>, p: Page)
    requires Inv(s) && p in s.entries
    ensures var t := OnStep2(s, h, edits); p in t.entries && Told(s, fate, EvStep2(h, edits), p, t.entries[p])
  {
    hide Inv;
    if h in s.byHandle {
      HandleKnown(s, h);
    }
  }

  lemma {:induction false} UpdateTells(s: State, fate: Fate, h: nat, edits: set<Edit>, p: Page)
    requires Inv(s) && p in s.entries
    ensures var t := OnUpdate(s, h, edits); p in t.entries && Told(s, fate, EvUpdate(h, edits), p, t.entries[p])
  {
    hide Inv;
    if h in s.byHandle {
      HandleKnown(s, h);
    }
  }

  lemma {:induction false} OtherFramesTell(s: State, fate: Fate, ev: Event, p: Page)
    requires Inv(s) && p in Step(s, fate, ev).entries
    requires ev.EvClosed? || ev.EvRoleChanged? || ev.EvError? || ev.EvDisconnect? || ev.EvFatal?
    ensures Told(s, fate, ev, p, Step(s, fate, ev).entries[p])
  {
    hide Inv;
    if ev.EvError? && ev.id in s.byRequest {
      RequestKnown(s, ev.id);
    } else if ev.EvClosed? && ev.handle in s.byHandle {
      HandleKnown(s, ev.handle);
    } else if ev.EvRoleChanged? && ev.handle in s.byHandle {
      HandleKnown(s, ev.handle);
    }
  }

  lemma {:induction false} RetryAllAsks(s: State, fate: Fate, pages: seq<Page>, p: Page)
    requires p in s.entries && s.entries[p].handle.None?
    requires s.entries[p].requestId.None? || s.entries[p].status == Opening
    ensures p in RetryAll(s, fate, pages).entries
    ensures Asked(s.entries[p], RetryAll(s, fate, pages).entries[p], p in pages || s.entries[p].status == Opening)
    decreases |pages|
  {
    hide RequestOpen;
    if pages != [] {
      var q := pages[0];
      var t := Retry(s, fate, q);
      if q in s.entries && s.entries[q].handle.None? && s.entries[q].requestId.None? {
        RequestOpenAsks(Put(s, q, s.entries[q].(status := Opening)), fate, q, p);
      }
      assert p in pages <==> p == q || p in pages[1..];
      RetryAllAsks(t, fate, pages[1..], p);
    }
  }

  lemma {:induction false} RetryAllLeaves(s: State, fate: Fate, pages: seq<Page>, p: Page)
    requires p in s.entries
    ensures p in RetryAll(s, fate, pages).entries
    ensures var e, e' := s.entries[p], RetryAll(s, fate, pages).entries[p];
      e' == e.(requestId := e'.requestId, status := e'.status)
    decreases |pages|
  {
    hide RequestOpen;
    if pages != [] {
      var q := pages[0];
      if q in s.entries && s.entries[q].handle.None? && s.entries[q].requestId.None? {
        RequestOpenAsks(Put(s, q, s.entries[q].(status := Opening)), fate, q, p);
      }
      RetryAllLeaves(Retry(s, fate, q), fate, pages[1..], p);
    }
  }

  /** Reopening drops the handle of every page it comes to and asks for it. */
  lemma {:induction false} ReopenAllAsks(s: State, fate: Fate, pages: seq<Page>, p: Page)
    requires p in s.entries
    ensures p in ReopenAll(s, fate, pages).entries
    ensures var e, e' := s.entries[p], ReopenAll(s, fate, pages).entries[p];
      if p in pages then e' == e.(handle := None, requestId := e'.requestId, status := Opening) else e' == e
    decreases |pages|
  {
    hide RequestOpen;
    if pages != [] {
      var q := pages[0];
      if q in s.entries {
        RequestOpenAsks(Put(s, q, s.entries[q].(handle := None, requestId := None, status := Opening)), fate, q, p);
      }
      assert p in pages <==> p == q || p in pages[1..];
      ReopenAllAsks(Reopen(s, fate, q), fate, pages[1..], p);
    }
  }

  lemma {:induction false} AuthAckTells(s: State, fate: Fate, p: Page)
    requires Inv(s) && p in AuthAck(s, fate).entries
    ensures Told(s, fate, EvAuthAck, p, AuthAck(s, fate).entries[p])
  {
    hide RetryAll, ReopenAll, HandlesOk, RequestsOk, RefsOk, SyncOk, LogOk, Distinct;
    AuthAckHolds(s, fate);
    var t := s.(ready := true, connectedBefore := true);
    assert p in t.order;
    RetryAllLeaves(t, fate, t.order, p);
    var u := RetryAll(t, fate, t.order);
    if s.connectedBefore {
      RetryAllFrame(t, fate, t.order);
      ReopenAllAsks(u.(byHandle := map[], byRequest := map[]), fate, u.order, p);
    } else {
      RetryAllAsks(t, fate, t.order, p);
    }
  }

  /** Only an open makes an entry. */
  lemma {:induction false} OthersMakeNone(s: State, fate: Fate, ev: Event, p: Page)
    requires p in Step(s, fate, ev).entries && !ev.EvOpen?
    ensures p in s.entries
  {
    hide Open, LocalEdit, OnOpenAck, OnStep1, OnStep2, OnUpdate, AuthAck, Fatal, Disconnect, Release;
    if ev.EvEdit? && ev.page in s.entries {
      EditHolds(s, fate, ev.page, ev.edit);
    } else if ev.EvRelease? {
      ReleaseCounts(s, fate, ev.h, p);
    } else if ev.EvAuthAck? {
      AuthAckHolds(s, fate);
    } else if ev.EvDisconnect? || ev.EvFatal? {
      LossHolds(s, fate, ev);
    } else if !ev.EvEdit? {
      FramesHold(s, fate, ev);
    }
  }

  lemma {:induction false} LossHolds(s: State, fate: Fate, ev: Event)
    requires ev.EvDisconnect? || ev.EvFatal?
    ensures Step(s, fate, ev).entries.Keys == s.entries.Keys
  {
    hide Dropped, Revoked;
  }

  lemma {:induction false} StepTells(s: State, fate: Fate, ev: Event, p: Page)
    requires Inv(s) && p in Step(s, fate, ev).entries
    ensures Told(s, fate, ev, p, Step(s, fate, ev).entries[p])
  {
    hide Inv, Told;
    if !ev.EvOpen? {
      OthersMakeNone(s, fate, ev, p);
    }
    match ev
    case EvOpen(page, stored) => OpenTells(s, fate, page, stored, p);
    case EvRelease(h) => ReleaseTells(s, fate, h, p);
    case EvAuthAck => AuthAckTells(s, fate, p);
    case EvEdit(page, edit) => EditTells(s, fate, page, edit, p);
    case EvOpenAck(id, h, role) => AckTells(s, fate, id, h, role, p);
    case EvStep1(h, known) => Step1Tells(s, fate, h, known, p);
    case EvStep2(h, edits) => Step2Tells(s, fate, h, edits, p);
    case EvUpdate(h, edits) => UpdateTells(s, fate, h, edits, p);
    case _ => OtherFramesTell(s, fate, ev, p);
  }

  // ----- every run

  lemma {:induction false} RunLast(s: State, fate: Fate, evs: seq<Event>)
    requires evs != []
    ensures var n := |evs| - 1;
      && Run(s, fate, evs) == Step(Run(s, fate, evs[..n]), fate, evs[n])
      && (ExpectedRun(s, fate, evs)
          <==> ExpectedRun(s, fate, evs[..n]) && Expected(Run(s, fate, evs[..n]), evs[n]))
    decreases |evs|
  {
    hide Step, Expected;
    var n := |evs| - 1;
    if n == 0 {
      assert evs[1..] == [] && evs[..0] == [];
    } else {
      var t := Step(s, fate, evs[0]);
      assert evs[1..][..n - 1] == evs[..n][1..] && evs[1..][n - 1] == evs[n];
      RunLast(t, fate, evs[1..]);
    }
  }

  /**
    In every run: the document of a held page holds exactly what was brought into it since its entry was made, and
    its handle, role, status and flag are what the latest event that speaks of them says.
   */
  lemma {:induction false} HeldPageIsTold(fate: Fate, evs: seq<Event>, p: Page)
    requires ExpectedRun(INITIAL, fate, evs) && p in Run(INITIAL, fate, evs).entries
    ensures var e := Run(INITIAL, fate, evs).entries[p];
      && e.doc == DocTold(fate, evs, p)
      && e.handle == HandleTold(fate, evs, p)
      && e.role == RoleTold(fate, evs, p)
      && e.status == StatusTold(fate, evs, p)
      && e.synced == SyncedTold(fate, evs, p)
    decreases |evs|
  {
    hide Step, Expected, Inv, Run, ExpectedRun, HandleSaid, RoleSaid, StatusSaid, SyncedSaid, Brought;
    if evs == [] {
      NothingHeld(fate);
    } else {
      var n := |evs| - 1;
      var s := Run(INITIAL, fate, evs[..n]);
      RunLast(INITIAL, fate, evs);
      InitialOk();
      RunKeeps(INITIAL, fate, evs[..n]);
      StepTells(s, fate, evs[n], p);
      if Creates(s, evs[n], p) {
        NewSays(s, fate, evs[n], p);
      } else {
        HeldPageIsTold(fate, evs[..n], p);
      }
    }
  }

  /** The event at `i` brings `x` to the page, and no later event makes a new entry for it. */
  ghost predicate BroughtAt(fate: Fate, evs: seq<Event>, i: nat, p: Page, x: Edit)
    requires i < |evs|
  {
    && x in Brought(Run(INITIAL, fate, evs[..i]), evs[i], p)
    && forall j :: i < j < |evs| ==> !CreatesAt(fate, evs, j, p)
  }

  ghost predicate CreatesAt(fate: Fate, evs: seq<Event>, j: nat, p: Page)
    requires j < |evs|
  {
    Creates(Run(INITIAL, fate, evs[..j]), evs[j], p)
  }

  /** That is: by some one event since then. */
  lemma {:induction false} DocToldIff(fate: Fate, evs: seq<Event>, p: Page, x: Edit)
    ensures x in DocTold(fate, evs, p) <==> exists i :: 0 <= i < |evs| && BroughtAt(fate, evs, i, p, x)
    decreases |evs|
  {
    hide Brought, Creates, Run;
    if evs != [] {
      var n := |evs| - 1;
      var init := evs[..n];
      DocToldIff(fate, init, p, x);
      forall i | 0 <= i < n
        ensures BroughtAt(fate, evs, i, p, x) <==> BroughtAt(fate, init, i, p, x) && !CreatesAt(fate, evs, n, p)
      {
        BroughtBefore(fate, evs, i, p, x);
      }
      assert BroughtAt(fate, evs, n, p, x) <==> x in Brought(Before(fate, evs), evs[n], p);
    }
  }

  lemma {:induction false} BroughtBefore(fate: Fate, evs: seq<Event>, i: nat, p: Page, x: Edit)
    requires i + 1 < |evs|
    ensures var n := |evs| - 1;
      BroughtAt(fate, evs, i, p, x) <==> BroughtAt(fate, evs[..n], i, p, x) && !CreatesAt(fate, evs, n, p)
  {
    hide Brought, Creates, Run;
    var n := |evs| - 1;
    assert evs[..n][..i] == evs[..i] && evs[..n][i] == evs[i];
    forall j | 0 <= j < n ensures CreatesAt(fate, evs[..n], j, p) <==> CreatesAt(fate, evs, j, p) {
      assert evs[..n][..j] == evs[..j];
    }
  }

  lemma {:induction false} NothingHeld(fate: Fate)
    ensures Run(INITIAL, fate, []).entries == map[]
  {
  }

  lemma {:induction false} NewSays(s: State, fate: Fate, ev: Event, p: Page)
    requires Creates(s, ev, p)
    ensures HandleSaid(s, ev, p) == Some(None) && RoleSaid(s, ev, p) == Some(None)
    ensures StatusSaid(s, fate, ev, p) == Some(Opening) && SyncedSaid(s, fate, ev, p) == Some(false)
  {
  }

  // ----- what goes over the wire

  /** A frame that is sent, or dropped, at this point of the log. */
  function Tried(s: State, fate: Fate, at: nat, f: Frame): Record {
    Attempt(f, s.ready && fate(at))
  }

  /** The last unreleased handle of a document the server has. */
  predicate LastOfSynced(s: State, h: nat) {
    && h < |s.handles| && !s.handles[h].released && s.handles[h].page in s.entries
    && s.entries[s.handles[h].page].refCount == 1 && s.entries[s.handles[h].page].synced
  }

  /** What an event other than an authentication adds to the log. */
  function Records(s: State, fate: Fate, ev: Event): seq<Record> {
    var n := |s.log|;
    match ev
    case EvOpen(p, _) => if p in s.entries then [] else [Tried(s, fate, n, OpenFrame(s.nextRequestId, p))]
    case EvRelease(h) =>
      if LastOfSynced(s, h) && s.entries[s.handles[h].page].handle.Some? then
        [Tried(s, fate, n, CloseFrame(s.entries[s.handles[h].page].handle.value))]
      else []
    case EvEdit(p, edit) =>
      if p in s.entries && s.entries[p].handle.Some? then
        [Tried(s, fate, n, UpdateFrame(s.entries[p].handle.value, {edit}))]
      else []
    case EvOpenAck(id, h, _) =>
      if id in s.byRequest then [Issued(id, h), Tried(s, fate, n + 1, Step1Frame(h))] else []
    case EvStep1(h, known) =>
      if h in s.byHandle && s.byHandle[h] in s.entries then
        [Named(h, known), Tried(s, fate, n + 1, ReplyFrame(h, s.entries[s.byHandle[h]].doc - known))]
      else []
    case EvStep2(h, edits) => if h in s.byHandle then [Named(h, edits)] else []
    case EvUpdate(h, edits) => if h in s.byHandle then [Named(h, edits)] else []
    case EvDisconnect => if s.ready then [Lost] else []
    case EvFatal(_) => if s.ready then [Lost] else []
    case _ => []
  }

  /**
    What each event sends: an open for a new entry, a local edit alone, our state vector when a handle is issued, for
    the server's state vector just what it lacks, and a close when the last reference to a synced document goes.
   */
  lemma {:induction false} StepRecords(s: State, fate: Fate, ev: Event)
    requires Inv(s) && !ev.EvAuthAck?
    ensures Step(s, fate, ev).log == s.log + Records(s, fate, ev)
  {
    hide Inv, OnOpenAck, OnStep1, OnStep2, OnUpdate, Release, Open, LocalEdit, AuthAck, Fatal, Disconnect;
    match ev
    case EvOpen(p, stored) => OpenRecords(s, fate, p, stored);
    case EvRelease(h) => ReleaseRecords(s, fate, h);
    case EvEdit(p, edit) => EditRecords(s, fate, p, edit);
    case EvDisconnect => LossRecords(s, fate, ev);
    case EvFatal(denied) => LossRecords(s, fate, ev);
    case EvOpenAck(id, h, role) => AckRecords(s, fate, id, h, role);
    case _ => SyncRecords(s, fate, ev);
  }

  lemma {:induction false} OpenRecords(s: State, fate: Fate, p: Page, stored: set<Edit>)
    ensures Open(s, fate, p, stored).log == s.log + Records(s, fate, EvOpen(p, stored))
  {
  }

  lemma {:induction false} ReleaseRecords(s: State, fate: Fate, h: nat)
    requires Inv(s)
    ensures Release(s, fate, h).log == s.log + Records(s, fate, EvRelease(h))
  {
    hide WithoutPage, OrderOk, HandlesOk, RequestsOk, SyncOk, EarlyOk, LogOk;
    if h < |s.handles| && !s.handles[h].released {
      var p := s.handles[h].page;
      assert s.handles[h] in s.handles;
      CountIsPositive(s.handles, h);
    }
  }

  lemma {:induction false} CountIsPositive(handles: seq<Handle>, h: nat)
    requires h < |handles| && !handles[h].released
    ensures Live(handles, handles[h].page) > 0
  {
    NoneLive(handles, handles[h].page);
    assert handles[h] in handles;
  }

  lemma {:induction false} EditRecords(s: State, fate: Fate, p: Page, edit: Edit)
    ensures Step(s, fate, EvEdit(p, edit)).log == s.log + Records(s, fate, EvEdit(p, edit))
  {
    hide OnOpenAck, OnStep1, OnStep2, OnUpdate, Release, Open, AuthAck, Fatal, Disconnect;
  }

  lemma {:induction false} AckRecords(s: State, fate: Fate, id: nat, h: nat, role: Role)
    requires Inv(s)
    ensures OnOpenAck(s, fate, id, h, role).log == s.log + Records(s, fate, EvOpenAck(id, h, role))
  {
    hide Inv;
    if id in s.byRequest {
      RequestKnown(s, id);
    }
  }

  lemma {:induction false} LossRecords(s: State, fate: Fate, ev: Event)
    requires ev.EvDisconnect? || ev.EvFatal?
    ensures Step(s, fate, ev).log == s.log + Records(s, fate, ev)
  {
    hide Dropped, Revoked, OnOpenAck, OnStep1, OnStep2, OnUpdate, Release, Open, LocalEdit, AuthAck;
  }

  lemma {:induction false} SyncRecords(s: State, fate: Fate, ev: Event)
    requires Inv(s)
    requires ev.EvStep1? || ev.EvStep2? || ev.EvUpdate? || ev.EvClosed? || ev.EvRoleChanged? || ev.EvError?
    ensures Step(s, fate, ev).log == s.log + Records(s, fate, ev)
  {
    hide Inv, OnOpenAck, Release, Open, LocalEdit, AuthAck, Fatal, Disconnect;
    if (ev.EvStep1? || ev.EvStep2? || ev.EvUpdate?) && ev.handle in s.byHandle {
      HandleKnown(s, ev.handle);
    }
  }

  /** A page is dropped exactly when the last reference to its synced document is released. */
  lemma {:induction false} DroppedIff(s: State, fate: Fate, ev: Event, p: Page)
    requires Inv(s) && p in s.entries
    ensures p !in Step(s, fate, ev).entries <==> ev.EvRelease? && LastOfSynced(s, ev.h) && s.handles[ev.h].page == p
  {
    hide Inv, Step;
    if ev.EvRelease? {
      ReleaseDropsIff(s, fate, ev.h, p);
      ReleaseIsStep(s, fate, ev.h);
    } else if p !in Step(s, fate, ev).entries {
      OnlyReleaseDiscards(s, fate, ev, p);
    }
  }

  lemma {:induction false} ReleaseIsStep(s: State, fate: Fate, h: nat)
    ensures Step(s, fate, EvRelease(h)) == Release(s, fate, h)
  {
  }

  lemma {:induction false} ReleaseDropsIff(s: State, fate: Fate, h: nat, p: Page)
    requires Inv(s) && p in s.entries
    ensures p !in Release(s, fate, h).entries <==> LastOfSynced(s, h) && s.handles[h].page == p
  {
    hide WithoutPage, OrderOk, HandlesOk, RequestsOk, SyncOk, EarlyOk, LogOk;
    if h < |s.handles| && !s.handles[h].released {
      assert s.handles[h] in s.handles;
      CountIsPositive(s.handles, h);
    }
  }
}

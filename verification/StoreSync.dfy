/**
  What the document store hands over, and when it may discard a document (packages/client/src/store.ts).

  The log alone says which edits of a page the server has: those in a frame that was sent under a handle
  the server issued for the page, and those the server named itself, since the connection was last lost.
  A store is safe when every document it takes for synced holds only such edits. Every step but a
  step 2 keeps the store safe, whatever the server sends and whichever sends fail; a step 2 keeps it safe
  exactly when the server has all the document holds, which after an answered step 1 means that no edit
  whose send failed is outstanding.
 */
module StoreSync {
  import opened Common
  import opened StoreSpec
  import opened StoreTheorems

  // ----- reading the log

  /**
    What a log shows: the page of each request that was sent, the page each issued handle stands for, the
    edits of each page the server has, and, for each handle whose step 1 was answered since it was issued,
    the edits of later updates that were not sent.
   */
  datatype Shown = Shown(
    requested: map<nat, Page>, pages: map<nat, Page>, has: map<Page, set<Edit>>, unsent: map<nat, set<Edit>>)

  function Has(v: Shown, p: Page): set<Edit> {
    if p in v.has then v.has[p] else {}
  }

  function Given(v: Shown, handle: nat, edits: set<Edit>): Shown {
    if handle !in v.pages then v
    else v.(has := v.has[v.pages[handle] := Has(v, v.pages[handle]) + edits])
  }

  function AfterAttempt(v: Shown, f: Frame, sent: bool): Shown {
    match f
    case OpenFrame(id, page) => if sent then v.(requested := v.requested[id := page]) else v
    case ReplyFrame(h, edits) => if sent then Given(v, h, edits).(unsent := v.unsent[h := {}]) else v
    case UpdateFrame(h, edits) =>
      if sent then Given(v, h, edits)
      else if h in v.unsent then v.(unsent := v.unsent[h := v.unsent[h] + edits])
      else v
    case _ => v
  }

  function After(v: Shown, r: Record): Shown {
    match r
    case Attempt(f, sent) => AfterAttempt(v, f, sent)
    case Issued(id, h) =>
      v.(pages := if id in v.requested then v.pages[h := v.requested[id]] else v.pages, unsent := v.unsent - {h})
    case Named(h, edits) => Given(v, h, edits)
    case Lost => v.(has := map[], unsent := map[])
  }

  function Reading(log: seq<Record>): Shown {
    if log == [] then Shown(map[], map[], map[], map[])
    else After(Reading(log[..|log| - 1]), log[|log| - 1])
  }

  lemma {:induction false} ReadingNext(log: seq<Record>, r: Record)
    ensures Reading(log + [r]) == After(Reading(log), r)
  {
    assert (log + [r])[..|log|] == log;
  }

  /**
    A record hands `x` over to the server, or shows that the server has it, under a handle that stands for
    `p`; `pages` is what the handles stand for when it is made.
   */
  ghost predicate Carries(pages: map<nat, Page>, r: Record, p: Page, x: Edit) {
    || (r.Named? && x in r.edits && r.handle in pages && pages[r.handle] == p)
    || (r.Attempt? && r.sent && (r.frame.ReplyFrame? || r.frame.UpdateFrame?)
        && x in r.frame.edits && r.frame.handle in pages && pages[r.frame.handle] == p)
  }

  ghost predicate CarriedAt(log: seq<Record>, i: nat, p: Page, x: Edit)
    requires i < |log|
  {
    Carries(Reading(log[..i]).pages, log[i], p, x)
  }

  ghost predicate CarriedSince(log: seq<Record>, p: Page, x: Edit) {
    exists i :: 0 <= i < |log| && CarriedAt(log, i, p, x) && Lost !in log[i..]
  }

  /** The server has an edit exactly when some record since the last loss of the connection carries it. */
  lemma {:induction false} HasIffCarried(log: seq<Record>, p: Page, x: Edit)
    ensures x in Has(Reading(log), p) <==> CarriedSince(log, p, x)
  {
    if log != [] {
      var n := |log| - 1;
      var init, r := log[..n], log[n];
      HasIffCarried(init, p, x);
      assert log == init + [r];
      HasNext(Reading(init), r, p, x);
      if r != Lost {
        CarriedNext(log, p, x);
      } else {
        assert forall i :: 0 <= i < |log| ==> log[i..][n - i] == Lost;
      }
    }
  }

  lemma {:induction false} HasNext(v: Shown, r: Record, p: Page, x: Edit)
    ensures x in Has(After(v, r), p) <==> r != Lost && (x in Has(v, p) || Carries(v.pages, r, p, x))
  {
  }

  lemma {:induction false} CarriedNext(log: seq<Record>, p: Page, x: Edit)
    requires log != [] && log[|log| - 1] != Lost
    ensures var n := |log| - 1;
      CarriedSince(log, p, x) <==> CarriedSince(log[..n], p, x) || CarriedAt(log, n, p, x)
  {
    hide Reading, Carries;
    var n := |log| - 1;
    var init := log[..n];
    forall i | 0 <= i < n
      ensures (CarriedAt(init, i, p, x) <==> CarriedAt(log, i, p, x)) && (Lost in init[i..] <==> Lost in log[i..])
    {
      assert init[..i] == log[..i];
      assert log[i..] == init[i..] + [log[n]];
    }
    assert log[n..] == [log[n]];
    if CarriedSince(init, p, x) {
      var i :| 0 <= i < |init| && CarriedAt(init, i, p, x) && Lost !in init[i..];
      assert CarriedAt(log, i, p, x) && Lost !in log[i..];
    }
  }

  // ----- what every run keeps

  /** The log shows the page of every live handle and of every tracked request. */
  ghost predicate LinksOk(byHandle: map<nat, Page>, byRequest: map<nat, Page>, v: Shown) {
    && (forall h <- byHandle :: h in v.pages && v.pages[h] == byHandle[h])
    && (forall r <- byRequest :: r in v.requested && v.requested[r] == byRequest[r])
  }

  /** Once step 1 was answered, a document holds what the server has and the edits whose sends failed since. */
  ghost predicate AnsweredOk(m: Entries, byHandle: map<nat, Page>, v: Shown) {
    forall h <- byHandle :: h in v.unsent && byHandle[h] in m ==>
      v.unsent[h] <= m[byHandle[h]].doc <= Has(v, byHandle[h]) + v.unsent[h]
  }

  ghost predicate Traced(s: State) {
    var v := Reading(s.log);
    LinksOk(s.byHandle, s.byRequest, v) && AnsweredOk(s.entries, s.byHandle, v)
  }

  ghost predicate SafeOk(m: Entries, v: Shown) {
    forall p <- m :: m[p].synced ==> m[p].doc <= Has(v, p)
  }

  /** Every document taken for synced holds only edits the server has. */
  ghost predicate Safe(s: State) {
    SafeOk(s.entries, Reading(s.log))
  }

  /** The step keeps the trace, and a safe store safe. */
  ghost predicate Keeps(s: State, t: State) {
    Traced(t) && (Safe(s) ==> Safe(t))
  }

  /** One entry changes without a change of its document, and the log shows nothing new of documents. */
  lemma {:induction false} Untouched(s: State, t: State, p: Page)
    requires Traced(s) && p in s.entries && p in t.entries && t.entries == s.entries[p := t.entries[p]]
    requires t.entries[p].doc == s.entries[p].doc && (t.entries[p].synced ==> s.entries[p].synced)
    requires LinksOk(t.byHandle, t.byRequest, Reading(t.log))
    requires t.byHandle.Keys <= s.byHandle.Keys && forall h <- t.byHandle :: t.byHandle[h] == s.byHandle[h]
    requires Reading(t.log).has == Reading(s.log).has && Reading(t.log).unsent == Reading(s.log).unsent
    ensures Keeps(s, t)
  {
    hide Reading;
  }

  lemma {:induction false} OpenSent(v: Shown, f: Frame, sent: bool)
    requires f.OpenFrame?
    ensures var w := After(v, Attempt(f, sent));
      && w == v.(requested := w.requested)
      && w.requested == if sent then v.requested[f.id := f.page] else v.requested
  {
  }

  lemma {:induction false} RequestOpenTraced(s: State, fate: Fate, p: Page)
    requires Traced(s) && p in s.entries
    ensures Keeps(s, RequestOpen(s, fate, p))
  {
    hide Reading, After;
    var t, f := RequestOpen(s, fate, p), OpenFrame(s.nextRequestId, p);
    ReadingNext(s.log, Attempt(f, Sends(s, fate)));
    OpenSent(Reading(s.log), f, Sends(s, fate));
    Untouched(s, t, p);
  }

  lemma {:induction false} KeepsBoth(s: State, t: State, u: State)
    requires Keeps(s, t) && Keeps(t, u)
    ensures Keeps(s, u)
  {
  }

  lemma {:induction false} OpenTraced(s: State, fate: Fate, p: Page, stored: set<Edit>)
    requires Inv(s) && Traced(s)
    ensures Keeps(s, Open(s, fate, p, stored))
  {
    hide Reading, RequestOpen, Inv;
    if p in s.entries {
      Untouched(s, Open(s, fate, p, stored), p);
    } else {
      var n := s.nextSerial;
      var t := s.(handles := s.handles + [Handle(p, n, false)], order := s.order + [p], nextSerial := n + 1);
      var u := Put(t, p, NewEntry(n, stored));
      NewIsTraced(s, u, p);
      RequestOpenTraced(u, fate, p);
      KeepsBoth(s, u, RequestOpen(u, fate, p));
    }
  }

  lemma {:induction false} NewIsTraced(s: State, t: State, p: Page)
    requires Inv(s) && Traced(s) && p !in s.entries && p in t.entries && t.entries == s.entries[p := t.entries[p]]
    requires !t.entries[p].synced && t.log == s.log && t.byHandle == s.byHandle && t.byRequest == s.byRequest
    ensures Keeps(s, t)
  {
    hide Reading, OrderOk, RequestsOk, RefsOk, SyncOk, EarlyOk, LogOk;
  }

  /** The one live handle of a page. */
  lemma {:induction false} OneHandle(s: State, p: Page)
    requires Inv(s) && p in s.entries
    ensures forall h <- s.byHandle :: s.byHandle[h] == p ==> s.entries[p].handle == Some(h)
    ensures s.entries[p].handle.Some? ==>
      s.entries[p].handle.value in s.byHandle && s.byHandle[s.entries[p].handle.value] == p
  {
    hide OrderOk, RequestsOk, RefsOk, SyncOk, EarlyOk, LogOk;
  }

  /**
    The document of `p` grows by `more`, the server has `given` more of it, and `failed` more sends of its handle
    failed.
   */
  ghost predicate Grows(
      s: State, t: State, p: Page, handle: nat, more: set<Edit>, given: set<Edit>, failed: set<Edit>) {
    var v, w := Reading(s.log), Reading(t.log);
    && p in s.entries && p in t.entries && t.entries == s.entries[p := t.entries[p]]
    && t.byHandle == s.byHandle && t.byRequest == s.byRequest
    && t.entries[p].doc == s.entries[p].doc + more
    && w.pages == v.pages && w.requested == v.requested
    && (forall q :: Has(w, q) == Has(v, q) + if q == p then given else {})
    && (forall h :: h != handle && h in w.unsent ==> h in v.unsent && w.unsent[h] == v.unsent[h])
    && (handle in w.unsent ==> handle in v.unsent && w.unsent[handle] == v.unsent[handle] + failed)
  }

  lemma {:induction false} GrownIsTraced(
      s: State, t: State, p: Page, handle: nat, more: set<Edit>, given: set<Edit>, failed: set<Edit>)
    requires Inv(s) && Traced(s) && handle in s.byHandle && s.byHandle[handle] == p && p in s.entries
    requires Grows(s, t, p, handle, more, given, failed) && failed <= more <= given + failed
    ensures Traced(t)
    ensures Safe(s) && (t.entries[p].synced ==> s.entries[p].synced && more <= given) ==> Safe(t)
  {
    hide Reading, Inv;
    OneHandle(s, p);
  }

  lemma {:induction false} UpdateGiven(v: Shown, handle: nat, edits: set<Edit>, sent: bool, q: Page)
    requires handle in v.pages
    ensures var w := After(v, Attempt(UpdateFrame(handle, edits), sent));
      && w.pages == v.pages && w.requested == v.requested
      && Has(w, q) == Has(v, q) + (if sent && q == v.pages[handle] then edits else {})
      && w.unsent.Keys == v.unsent.Keys
      && forall h <- v.unsent :: w.unsent[h] == v.unsent[h] + if !sent && h == handle then edits else {}
  {
  }

  lemma {:induction false} LocalEditTraced(s: State, fate: Fate, p: Page, edit: Edit)
    requires Inv(s) && Traced(s) && p in s.entries
    ensures Keeps(s, LocalEdit(s, fate, p, edit))
  {
    hide Reading, Inv, After, Has;
    OneHandle(s, p);
    var t := LocalEdit(s, fate, p, edit);
    if s.entries[p].handle.Some? {
      var h, sent := s.entries[p].handle.value, Sends(s, fate);
      ReadingNext(s.log, Attempt(UpdateFrame(h, {edit}), sent));
      forall q ensures Has(Reading(t.log), q) == Has(Reading(s.log), q) + if sent && q == p then {edit} else {} {
        UpdateGiven(Reading(s.log), h, {edit}, sent, q);
      }
      UpdateGiven(Reading(s.log), h, {edit}, sent, p);
      GrownIsTraced(s, t, p, h, {edit}, if sent then {edit} else {}, if sent then {} else {edit});
    } else {
      OfflineEditTraced(s, t, p);
    }
  }

  lemma {:induction false} OfflineEditTraced(s: State, t: State, p: Page)
    requires Traced(s) && p in s.entries && (forall h <- s.byHandle :: s.byHandle[h] != p)
    requires p in t.entries && t == s.(entries := s.entries[p := t.entries[p]]) && !t.entries[p].synced
    ensures Keeps(s, t)
  {
    hide Reading, Has;
  }

  lemma {:induction false} NamedGiven(v: Shown, handle: nat, edits: set<Edit>, q: Page)
    requires handle in v.pages
    ensures var w := After(v, Named(handle, edits));
      && w == v.(has := w.has)
      && Has(w, q) == Has(v, q) + if q == v.pages[handle] then edits else {}
  {
  }

  lemma {:induction false} NamedTraced(s: State, handle: nat, edits: set<Edit>)
    requires Inv(s) && Traced(s) && handle in s.byHandle && s.byHandle[handle] in s.entries
    ensures Keeps(s, Noted(s, Named(handle, edits)))
    ensures edits <= Has(Reading(Noted(s, Named(handle, edits)).log), s.byHandle[handle])
  {
    hide Reading, Inv, After, Has;
    var t, p := Noted(s, Named(handle, edits)), s.byHandle[handle];
    ReadingNext(s.log, Named(handle, edits));
    forall q ensures Has(Reading(t.log), q) == Has(Reading(s.log), q) + if q == p then edits else {} {
      NamedGiven(Reading(s.log), handle, edits, q);
    }
    NamedGiven(Reading(s.log), handle, edits, p);
    GrownIsTraced(s, t, p, handle, {}, edits, {});
  }

  lemma {:induction false} OnStep1Traced(s: State, fate: Fate, handle: nat, known: set<Edit>)
    requires Inv(s) && Traced(s)
    ensures Keeps(s, OnStep1(s, fate, handle, known))
  {
    hide Reading, Inv, Traced, Safe, After;
    if handle in s.byHandle && s.byHandle[handle] in s.entries {
      var p, u := s.byHandle[handle], Noted(s, Named(handle, known));
      NamedTraced(s, handle, known);
      NamedKeepsInv(s, handle, known);
      ReplyTraced(u, fate, handle, known);
      var w := Logged(u, fate, ReplyFrame(handle, u.entries[p].doc - known));
      StatusIsFree(w, OnStep1(s, fate, handle, known), p);
    }
  }

  lemma {:induction false} NamedKeepsInv(s: State, handle: nat, edits: set<Edit>)
    requires Inv(s)
    ensures Inv(Noted(s, Named(handle, edits)))
  {
    hide OrderOk, HandlesOk, RequestsOk, RefsOk, SyncOk, EarlyOk, LogOk;
    LogOther(s.log, s.nextRequestId, Named(handle, edits));
  }

  /** The reply hands over all the server lacks: afterwards it has the document. */
  lemma {:induction false} ReplyTraced(s: State, fate: Fate, handle: nat, known: set<Edit>)
    requires Inv(s) && Traced(s) && handle in s.byHandle && s.byHandle[handle] in s.entries
    requires known <= Has(Reading(s.log), s.byHandle[handle])
    ensures Keeps(s, Logged(s, fate, ReplyFrame(handle, s.entries[s.byHandle[handle]].doc - known)))
  {
    hide Reading, Inv;
    var p := s.byHandle[handle];
    OneHandle(s, p);
    ReadingNext(s.log, Attempt(ReplyFrame(handle, s.entries[p].doc - known), Sends(s, fate)));
  }

  lemma {:induction false} ReceivedTraced(s: State, handle: nat, edits: set<Edit>, t: State)
    requires Inv(s) && Traced(s) && handle in s.byHandle && s.byHandle[handle] in s.entries
    requires var p := s.byHandle[handle];
      && p in t.entries && t.entries == s.entries[p := t.entries[p]] && t.entries[p].doc == s.entries[p].doc + edits
      && t.log == s.log + [Named(handle, edits)] && t.byHandle == s.byHandle && t.byRequest == s.byRequest
    ensures Traced(t)
    ensures Has(Reading(t.log), s.byHandle[handle]) == Has(Reading(s.log), s.byHandle[handle]) + edits
    ensures Safe(s) && (t.entries[s.byHandle[handle]].synced ==> s.entries[s.byHandle[handle]].synced) ==> Safe(t)
  {
    hide Reading, Inv;
    OneHandle(s, s.byHandle[handle]);
    ReadingNext(s.log, Named(handle, edits));
  }

  lemma {:induction false} OnClosedTraced(s: State, handle: nat, denied: bool)
    requires Traced(s)
    ensures Keeps(s, OnClosed(s, handle, denied))
  {
    hide Reading;
    if handle in s.byHandle && s.byHandle[handle] in s.entries {
      Untouched(s, OnClosed(s, handle, denied), s.byHandle[handle]);
    }
  }

  lemma {:induction false} OnErrorTraced(s: State, id: nat, denied: bool)
    requires Traced(s)
    ensures Keeps(s, OnError(s, id, denied))
  {
    hide Reading;
    if id in s.byRequest && s.byRequest[id] in s.entries {
      Untouched(s, OnError(s, id, denied), s.byRequest[id]);
    }
  }

  lemma {:induction false} OnRoleChangedTraced(s: State, handle: nat, role: Role)
    requires Traced(s)
    ensures Keeps(s, OnRoleChanged(s, handle, role))
  {
    hide Reading;
    if handle in s.byHandle && s.byHandle[handle] in s.entries {
      Untouched(s, OnRoleChanged(s, handle, role), s.byHandle[handle]);
    }
  }

  lemma {:induction false} OnOpenAckTraced(s: State, fate: Fate, id: nat, handle: nat, role: Role)
    requires Traced(s) && handle !in s.byHandle
    ensures Keeps(s, OnOpenAck(s, fate, id, handle, role))
  {
    hide Reading, After;
    if id in s.byRequest && s.byRequest[id] in s.entries {
      var t, u := OnOpenAck(s, fate, id, handle, role), Noted(s, Issued(id, handle));
      ReadingNext(s.log, Issued(id, handle));
      ReadingNext(u.log, Attempt(Step1Frame(handle), Sends(u, fate)));
      IssuedShows(Reading(s.log), id, handle, Sends(u, fate));
    }
  }

  lemma {:induction false} IssuedShows(v: Shown, id: nat, handle: nat, sent: bool)
    requires id in v.requested
    ensures var w := After(After(v, Issued(id, handle)), Attempt(Step1Frame(handle), sent));
      w == v.(pages := v.pages[handle := v.requested[id]], unsent := v.unsent - {handle})
  {
  }

  lemma {:induction false} ReleaseTraced(s: State, fate: Fate, h: nat)
    requires Traced(s)
    ensures Keeps(s, Release(s, fate, h))
  {
    hide Reading, Discard;
    if h < |s.handles| && !s.handles[h].released && OnHeldEntry(s, s.handles[h]) {
      var p := s.handles[h].page;
      var u := s.(handles := s.handles[h := s.handles[h].(released := true)]);
      var t := Put(u, p, s.entries[p].(refCount := s.entries[p].refCount - 1));
      Untouched(s, t, p);
      DiscardTraced(t, fate, p);
      if Release(s, fate, h) != t {
        KeepsBoth(s, t, Discard(t, fate, p));
      }
    }
  }

  lemma {:induction false} DiscardTraced(s: State, fate: Fate, p: Page)
    requires Traced(s) && p in s.entries
    ensures Keeps(s, Discard(s, fate, p))
  {
    hide Reading, WithoutPage, After;
    if s.entries[p].handle.Some? {
      var close := Attempt(CloseFrame(s.entries[p].handle.value), Sends(s, fate));
      ReadingNext(s.log, close);
      CloseShowsNothing(Reading(s.log), s.entries[p].handle.value, Sends(s, fate));
    }
    FewerIsTraced(s, Discard(s, fate, p));
  }

  lemma {:induction false} CloseShowsNothing(v: Shown, handle: nat, sent: bool)
    ensures After(v, Attempt(CloseFrame(handle), sent)) == v
  {
  }

  lemma {:induction false} FewerIsTraced(s: State, t: State)
    requires Traced(s) && Reading(t.log) == Reading(s.log)
    requires t.entries.Keys <= s.entries.Keys && forall p <- t.entries :: t.entries[p] == s.entries[p]
    requires t.byHandle.Keys <= s.byHandle.Keys && forall h <- t.byHandle :: t.byHandle[h] == s.byHandle[h]
    requires t.byRequest.Keys <= s.byRequest.Keys && forall r <- t.byRequest :: t.byRequest[r] == s.byRequest[r]
    ensures Keeps(s, t)
  {
    hide Reading;
  }

  lemma {:induction false} DisconnectTraced(s: State)
    requires Traced(s)
    ensures Keeps(s, Disconnect(s))
  {
    hide Reading;
    ReadingNext(s.log, Lost);
  }

  lemma {:induction false} FatalTraced(s: State, denied: bool)
    requires Traced(s)
    ensures Keeps(s, Fatal(s, denied))
  {
    hide Reading, Disconnect;
    DisconnectTraced(s);
  }

  lemma {:induction false} RetryAllTraced(s: State, fate: Fate, pages: seq<Page>)
    requires Traced(s)
    ensures Keeps(s, RetryAll(s, fate, pages))
    decreases |pages|
  {
    hide Traced, Safe, RequestOpen;
    if pages != [] {
      var p := pages[0];
      if p in s.entries && s.entries[p].handle.None? && s.entries[p].requestId.None? {
        var u := Put(s, p, s.entries[p].(status := Opening));
        StatusIsFree(s, u, p);
        RequestOpenTraced(u, fate, p);
      }
      RetryAllTraced(Retry(s, fate, p), fate, pages[1..]);
    }
  }

  lemma {:induction false} StatusIsFree(s: State, t: State, p: Page)
    requires Traced(s) && p in s.entries && p in t.entries && t.entries == s.entries[p := t.entries[p]]
    requires t.entries[p].doc == s.entries[p].doc && t.entries[p].synced == s.entries[p].synced
    requires t.byHandle == s.byHandle && t.byRequest == s.byRequest && t.log == s.log
    ensures Keeps(s, t)
  {
    Untouched(s, t, p);
  }

  lemma {:induction false} ReopenAllTraced(s: State, fate: Fate, pages: seq<Page>)
    requires Traced(s)
    ensures Keeps(s, ReopenAll(s, fate, pages))
    decreases |pages|
  {
    hide Traced, Safe, RequestOpen;
    if pages != [] {
      var p := pages[0];
      if p in s.entries {
        var u := Put(s, p, s.entries[p].(handle := None, requestId := None, status := Opening));
        StatusIsFree(s, u, p);
        RequestOpenTraced(u, fate, p);
      }
      ReopenAllTraced(Reopen(s, fate, p), fate, pages[1..]);
    }
  }

  lemma {:induction false} AuthAckTraced(s: State, fate: Fate)
    requires Traced(s)
    ensures Keeps(s, AuthAck(s, fate))
  {
    hide Reading, RetryAll, ReopenAll;
    var t := s.(ready := true, connectedBefore := true);
    RetryAllTraced(t, fate, t.order);
    var u := RetryAll(t, fate, t.order);
    var w := u.(byHandle := map[], byRequest := map[]);
    assert Keeps(u, w);
    ReopenAllTraced(w, fate, u.order);
  }

  /** Every step keeps the trace, and every step but a step 2 keeps a safe store safe, whichever sends fail. */
  lemma {:induction false} StepTraced(s: State, fate: Fate, ev: Event)
    requires Inv(s) && Traced(s) && Expected(s, ev)
    ensures Traced(Step(s, fate, ev))
    ensures !ev.EvStep2? && Safe(s) ==> Safe(Step(s, fate, ev))
  {
    hide Inv, Traced, Safe;
    match ev
    case EvOpen(page, stored) => OpenTraced(s, fate, page, stored);
    case EvRelease(h) => ReleaseTraced(s, fate, h);
    case EvEdit(page, edit) =>
      if page in s.entries {
        LocalEditTraced(s, fate, page, edit);
      }
    case EvOpenAck(id, handle, role) => OnOpenAckTraced(s, fate, id, handle, role);
    case EvStep1(handle, known) => OnStep1Traced(s, fate, handle, known);
    case EvStep2(handle, edits) =>
      if handle in s.byHandle && s.byHandle[handle] in s.entries {
        ReceivedTraced(s, handle, edits, OnStep2(s, handle, edits));
      }
    case EvUpdate(handle, edits) =>
      if handle in s.byHandle && s.byHandle[handle] in s.entries {
        ReceivedTraced(s, handle, edits, OnUpdate(s, handle, edits));
      }
    case EvClosed(handle, denied) => OnClosedTraced(s, handle, denied);
    case EvRoleChanged(handle, role) => OnRoleChangedTraced(s, handle, role);
    case EvError(id, denied) => OnErrorTraced(s, id, denied);
    case EvDisconnect => DisconnectTraced(s);
    case EvAuthAck => AuthAckTraced(s, fate);
    case EvFatal(denied) => FatalTraced(s, denied);
  }

  // ----- step 2

  /** Every edit of the handle's document is one the server has, by the log, or names now. */
  ghost predicate AllCarried(s: State, handle: nat, edits: set<Edit>)
    requires handle in s.byHandle && s.byHandle[handle] in s.entries
  {
    forall x <- s.entries[s.byHandle[handle]].doc :: x in edits || CarriedSince(s.log, s.byHandle[handle], x)
  }

  lemma {:induction false} AllCarriedIs(s: State, handle: nat, edits: set<Edit>)
    requires handle in s.byHandle && s.byHandle[handle] in s.entries
    ensures AllCarried(s, handle, edits)
       <==> s.entries[s.byHandle[handle]].doc <= Has(Reading(s.log), s.byHandle[handle]) + edits
  {
    hide CarriedSince, Reading, Has;
    var p := s.byHandle[handle];
    forall x ensures x in Has(Reading(s.log), p) <==> CarriedSince(s.log, p, x) {
      HasIffCarried(s.log, p, x);
    }
  }

  /** A step 2 on a live handle keeps the store safe exactly when the server has, or names, all the document holds. */
  lemma {:induction false} Step2SafeIffCarried(s: State, handle: nat, edits: set<Edit>)
    requires Inv(s) && Traced(s) && Safe(s) && handle in s.byHandle
    ensures s.byHandle[handle] in s.entries
    ensures Safe(OnStep2(s, handle, edits)) <==> AllCarried(s, handle, edits)
  {
    hide Reading, Inv, Has, AllCarried;
    HandleKnown(s, handle);
    AllCarriedIs(s, handle, edits);
    var p, t := s.byHandle[handle], OnStep2(s, handle, edits);
    ReceivedTraced(s, handle, edits, t);
    if AllCarried(s, handle, edits) {
      forall q | q in t.entries && t.entries[q].synced ensures t.entries[q].doc <= Has(Reading(t.log), q) {
        if q != p {
          ReadingNext(s.log, Named(handle, edits));
          NamedGiven(Reading(s.log), handle, edits, q);
        }
      }
    } else {
      assert t.entries[p].synced && !(t.entries[p].doc <= Has(Reading(t.log), p));
    }
  }

  /** The server's step 1 was answered since it issued the handle and since the connection was last lost. */
  ghost predicate Answered(s: State, handle: nat) {
    handle in Reading(s.log).unsent
  }

  /** Every update under the handle whose send failed since that answer is one the server has or names now. */
  ghost predicate NoneOutstanding(s: State, handle: nat, edits: set<Edit>)
    requires handle in s.byHandle && Answered(s, handle)
  {
    var v := Reading(s.log);
    v.unsent[handle] <= Has(v, s.byHandle[handle]) + edits
  }

  /** After an answered step 1 that comes down to the store's own failed sends, whatever the document holds. */
  lemma {:induction false} Step2SafeIff(s: State, handle: nat, edits: set<Edit>)
    requires Inv(s) && Traced(s) && Safe(s) && handle in s.byHandle && Answered(s, handle)
    ensures Safe(OnStep2(s, handle, edits)) <==> NoneOutstanding(s, handle, edits)
  {
    hide Reading, Inv, Has, AllCarried;
    Step2SafeIffCarried(s, handle, edits);
    AllCarriedIs(s, handle, edits);
  }

  // ----- runs

  /** A step 2 on a live handle finds that the server has, or names, all its document holds. */
  ghost predicate Careful(s: State, ev: Event) {
    && Expected(s, ev)
    && (ev.EvStep2? && ev.handle in s.byHandle && s.byHandle[ev.handle] in s.entries ==>
      AllCarried(s, ev.handle, ev.edits))
  }

  ghost predicate CarefulRun(s: State, fate: Fate, evs: seq<Event>)
    decreases |evs|
  {
    evs == [] || (Careful(s, evs[0]) && CarefulRun(Step(s, fate, evs[0]), fate, evs[1..]))
  }

  ghost predicate AlwaysSafe(s: State, fate: Fate, evs: seq<Event>)
    decreases |evs|
  {
    Safe(s) && (evs == [] || AlwaysSafe(Step(s, fate, evs[0]), fate, evs[1..]))
  }

  lemma {:induction false} StepSafeIff(s: State, fate: Fate, ev: Event)
    requires Inv(s) && Traced(s) && Safe(s) && Expected(s, ev)
    ensures Safe(Step(s, fate, ev)) <==> Careful(s, ev)
  {
    hide Inv, Traced, Safe, Reading, AllCarried;
    if ev.EvStep2? && ev.handle in s.byHandle {
      Step2SafeIffCarried(s, ev.handle, ev.edits);
    } else if !ev.EvStep2? {
      StepTraced(s, fate, ev);
    }
  }

  /**
    Over every run: all its states are safe exactly when every step 2 finds all that its document holds with the
    server.
   */
  lemma {:induction false} RunSafeIff(s: State, fate: Fate, evs: seq<Event>)
    requires Inv(s) && Traced(s) && Safe(s) && ExpectedRun(s, fate, evs)
    ensures AlwaysSafe(s, fate, evs) <==> CarefulRun(s, fate, evs)
    decreases |evs|
  {
    hide Inv, Traced, Safe, Step, Careful, Expected;
    if evs != [] {
      StepSafeIff(s, fate, evs[0]);
      StepKeeps(s, fate, evs[0]);
      StepTraced(s, fate, evs[0]);
      if Safe(Step(s, fate, evs[0])) {
        RunSafeIff(Step(s, fate, evs[0]), fate, evs[1..]);
      } else {
        NotSafeNow(Step(s, fate, evs[0]), fate, evs[1..]);
      }
    }
  }

  lemma {:induction false} NotSafeNow(s: State, fate: Fate, evs: seq<Event>)
    requires !Safe(s)
    ensures !AlwaysSafe(s, fate, evs)
  {
  }

  /** The server sends step 2 for a live handle only after its step 1 was answered. */
  ghost predicate Promised(s: State, ev: Event) {
    Expected(s, ev) && (ev.EvStep2? && ev.handle in s.byHandle ==> Answered(s, ev.handle))
  }

  ghost predicate PromisedRun(s: State, fate: Fate, evs: seq<Event>)
    decreases |evs|
  {
    evs == [] || (Promised(s, evs[0]) && PromisedRun(Step(s, fate, evs[0]), fate, evs[1..]))
  }

  /** No failed send of the client is outstanding when a step 2 arrives. */
  ghost predicate Delivered(s: State, ev: Event) {
    ev.EvStep2? && ev.handle in s.byHandle && Answered(s, ev.handle) ==> NoneOutstanding(s, ev.handle, ev.edits)
  }

  ghost predicate DeliveredRun(s: State, fate: Fate, evs: seq<Event>)
    decreases |evs|
  {
    evs == [] || (Delivered(s, evs[0]) && DeliveredRun(Step(s, fate, evs[0]), fate, evs[1..]))
  }

  lemma {:induction false} PromisedStep(s: State, ev: Event)
    requires Inv(s) && Traced(s) && Promised(s, ev)
    ensures Careful(s, ev) <==> Delivered(s, ev)
  {
    hide Inv, Reading, Has, AllCarried;
    if ev.EvStep2? && ev.handle in s.byHandle {
      HandleKnown(s, ev.handle);
      AllCarriedIs(s, ev.handle, ev.edits);
    }
  }

  /**
    Over every run in which the server keeps its promise, that is exactly when no failed send is outstanding at
    any step 2.
   */
  lemma {:induction false} PromisedRunSafeIff(s: State, fate: Fate, evs: seq<Event>)
    requires Inv(s) && Traced(s) && Safe(s) && PromisedRun(s, fate, evs)
    ensures AlwaysSafe(s, fate, evs) <==> DeliveredRun(s, fate, evs)
    decreases |evs|
  {
    hide Inv, Traced, Safe, Step, Careful, Expected, Answered, Delivered;
    if evs != [] {
      PromisedStep(s, evs[0]);
      StepSafeIff(s, fate, evs[0]);
      StepKeeps(s, fate, evs[0]);
      StepTraced(s, fate, evs[0]);
      if Safe(Step(s, fate, evs[0])) {
        PromisedRunSafeIff(Step(s, fate, evs[0]), fate, evs[1..]);
      } else {
        NotSafeNow(Step(s, fate, evs[0]), fate, evs[1..]);
      }
    }
  }

  /** A state of some careful run from the start. */
  ghost predicate CarefullyReachable(s: State, fate: Fate) {
    exists evs :: CarefulRun(INITIAL, fate, evs) && s == Run(INITIAL, fate, evs)
  }

  lemma {:induction false} CarefulRunKeeps(s: State, fate: Fate, evs: seq<Event>)
    requires Inv(s) && Traced(s) && Safe(s) && CarefulRun(s, fate, evs)
    ensures var t := Run(s, fate, evs); Inv(t) && Traced(t) && Safe(t)
    decreases |evs|
  {
    hide Inv, Traced, Safe, Step, Expected, AllCarried;
    if evs != [] {
      StepSafeIff(s, fate, evs[0]);
      StepKeeps(s, fate, evs[0]);
      StepTraced(s, fate, evs[0]);
      CarefulRunKeeps(Step(s, fate, evs[0]), fate, evs[1..]);
    }
  }

  /**
    In every careful run, a document is discarded only by a release; each of its edits is in a frame that
    was sent, or was named by the server, since the connection was last lost; and no handle on it is left.
   */
  lemma {:induction false} NothingIsLost(s: State, fate: Fate, ev: Event, p: Page)
    requires CarefullyReachable(s, fate) && Expected(s, ev)
    requires p in s.entries && p !in Step(s, fate, ev).entries
    ensures ev.EvRelease?
    ensures forall x <- s.entries[p].doc :: CarriedSince(s.log, p, x)
    ensures forall h <- Step(s, fate, ev).handles :: h.page == p || h.serial == s.entries[p].serial ==> h.released
  {
    hide Reading, CarriedSince, Run, CarefulRun, Step, OrderOk, HandlesOk, RequestsOk, SyncOk, EarlyOk, LogOk, Traced;
    InitialOk();
    InitialIsSafe();
    var evs :| CarefulRun(INITIAL, fate, evs) && s == Run(INITIAL, fate, evs);
    CarefulRunKeeps(INITIAL, fate, evs);
    OnlyReleaseDiscards(s, fate, ev, p);
    forall x <- s.entries[p].doc ensures CarriedSince(s.log, p, x) {
      HasIffCarried(s.log, p, x);
    }
    StepKeeps(s, fate, ev);
    ReleaseLeavesOthers(s, fate, ev, p);
    NoHandleLeft(s, Step(s, fate, ev), p);
  }

  lemma {:induction false} NoHandleLeft(s: State, t: State, p: Page)
    requires Inv(s) && Inv(t) && p in s.entries && p !in t.entries && t.entries.Keys <= s.entries.Keys
    requires forall q <- t.entries :: t.entries[q].serial == s.entries[q].serial
    ensures forall h <- t.handles :: h.page == p || h.serial == s.entries[p].serial ==> h.released
  {
    hide OrderOk, HandlesOk, RequestsOk, SyncOk, EarlyOk, LogOk;
  }

  lemma {:induction false} InitialIsSafe()
    ensures Traced(INITIAL) && Safe(INITIAL)
  {
  }

  lemma {:induction false} ReleaseLeavesOthers(s: State, fate: Fate, ev: Event, p: Page)
    requires ev.EvRelease?
    ensures var t := Step(s, fate, ev);
      t.entries.Keys <= s.entries.Keys && forall q <- t.entries :: t.entries[q].serial == s.entries[q].serial
  {
    hide Open, LocalEdit, OnOpenAck, OnStep1, OnStep2, OnUpdate, AuthAck, Fatal, Disconnect, WithoutPage;
  }
}

/**
  What every run of the document store keeps.
 */
module StoreTheorems {
  import opened Common
  import opened StoreSpec

  type Entries = map<Page, Entry>

  // ----- the invariant

  /** The iteration order lists exactly the held pages, once each. */
  ghost predicate OrderOk(pages: set<Page>, order: seq<Page>) {
    Distinct(order) && forall p :: p in order <==> p in pages
  }

  /** `byHandle` and the entries' handles are mutually inverse. */
  ghost predicate HandlesOk(m: Entries, byHandle: map<nat, Page>) {
    && (forall h <- byHandle :: byHandle[h] in m && m[byHandle[h]].handle == Some(h))
    && (forall p <- m :: m[p].handle.Some? ==> m[p].handle.value in byHandle && byHandle[m[p].handle.value] == p)
  }

  /** Every tracked request belongs to a held entry that is waiting for it and has no handle. */
  ghost predicate RequestsOk(m: Entries, byRequest: map<nat, Page>, next: nat) {
    (forall r <- byRequest :: byRequest[r] in m && m[byRequest[r]].requestId == Some(r) && m[byRequest[r]].handle.None?)
    && FreshIds(m, next)
  }

  /** Remembered request ids are below the counter, and no two entries remember the same one. */
  ghost predicate FreshIds(m: Entries, next: nat) {
    && (forall p <- m :: m[p].requestId.Some? ==> m[p].requestId.value < next)
    && (forall p <- m, q <- m :: p != q && m[p].requestId.Some? ==> m[p].requestId != m[q].requestId)
  }

  /** How many handles of `p` are still to be released. */
  ghost function Live(handles: seq<Handle>, p: Page): nat {
    if handles == [] then 0
    else Live(handles[..|handles| - 1], p) + if IsLive(handles[|handles| - 1], p) then 1 else 0
  }

  ghost predicate IsLive(h: Handle, p: Page) {
    h.page == p && !h.released
  }

  /**
    A reference count is the number of unreleased handles, and those are all on the entry held for their
    page: no handle outlives its document, and two handles of one page share one. Serials are below the
    counter and no two entries share one.
   */
  ghost predicate RefsOk(m: Entries, handles: seq<Handle>, next: nat) {
    && (forall p <- m :: m[p].refCount == Live(handles, p) && m[p].serial < next)
    && (forall p <- m, q <- m :: p != q ==> m[p].serial != m[q].serial)
    && (forall h <- handles :: !h.released ==> h.page in m && m[h.page].serial == h.serial)
  }

  ghost predicate EntryOk(e: Entry) {
    e.status.Synced? ==> e.synced && e.handle.Some?
  }

  /** A document is shown as synced only when its flag says so and it has a live handle. */
  ghost predicate SyncOk(m: Entries) {
    forall p <- m :: EntryOk(m[p])
  }

  /** Before the first authentication nothing was ever sent, so nothing has a handle or a request. */
  ghost predicate EarlyOk(m: Entries, ready: bool, connectedBefore: bool) {
    !connectedBefore ==> !ready && forall p <- m :: m[p].handle.None? && m[p].requestId.None?
  }

  predicate IsOpen(r: Record) {
    r.Attempt? && r.frame.OpenFrame?
  }

  /** No request id is ever used twice, and 0 never is. */
  ghost predicate LogOk(log: seq<Record>, next: nat) {
    && next >= 1
    && (forall i :: 0 <= i < |log| && IsOpen(log[i]) ==> 1 <= log[i].frame.id < next)
    && (forall i, j :: 0 <= i < j < |log| && IsOpen(log[i]) && IsOpen(log[j]) ==> log[i].frame.id != log[j].frame.id)
  }

  ghost predicate Inv(s: State) {
    && OrderOk(s.entries.Keys, s.order)
    && HandlesOk(s.entries, s.byHandle)
    && RequestsOk(s.entries, s.byRequest, s.nextRequestId)
    && RefsOk(s.entries, s.handles, s.nextSerial)
    && SyncOk(s.entries)
    && EarlyOk(s.entries, s.ready, s.connectedBefore)
    && LogOk(s.log, s.nextRequestId)
  }

  // ----- the log

  lemma {:induction false} LogOther(log: seq<Record>, next: nat, r: Record)
    requires LogOk(log, next) && !IsOpen(r)
    ensures LogOk(log + [r], next)
  {
  }

  lemma {:induction false} LogOpen(log: seq<Record>, next: nat, p: Page, sent: bool)
    requires LogOk(log, next)
    ensures LogOk(log + [Attempt(OpenFrame(next, p), sent)], next + 1)
  {
  }

  // ----- one entry changes

  lemma {:induction false} SameKeys(m: Entries, order: seq<Page>, p: Page, e: Entry)
    requires OrderOk(m.Keys, order) && p in m
    ensures OrderOk(m[p := e].Keys, order)
  {
    assert m[p := e].Keys == m.Keys;
  }

  lemma {:induction false} HandleSame(m: Entries, byHandle: map<nat, Page>, p: Page, e: Entry)
    requires HandlesOk(m, byHandle) && p in m && e.handle == m[p].handle
    ensures HandlesOk(m[p := e], byHandle)
  {
  }

  lemma {:induction false} HandleGained(m: Entries, byHandle: map<nat, Page>, p: Page, e: Entry, h: nat)
    requires HandlesOk(m, byHandle) && p in m && m[p].handle.None? && e.handle == Some(h) && h !in byHandle
    ensures HandlesOk(m[p := e], byHandle[h := p])
  {
  }

  lemma {:induction false} HandleLost(m: Entries, byHandle: map<nat, Page>, p: Page, e: Entry, h: nat)
    requires HandlesOk(m, byHandle) && p in m && m[p].handle == Some(h) && e.handle.None?
    ensures HandlesOk(m[p := e], byHandle - {h})
  {
  }

  lemma {:induction false} RequestSame(m: Entries, byRequest: map<nat, Page>, next: nat, p: Page, e: Entry)
    requires RequestsOk(m, byRequest, next) && p in m
    requires e.requestId == m[p].requestId && (e.handle == m[p].handle || e.handle.None?)
    ensures RequestsOk(m[p := e], byRequest, next)
  {
  }

  lemma {:induction false} RequestMade(m: Entries, byRequest: map<nat, Page>, next: nat, p: Page, e: Entry)
    requires RequestsOk(m, byRequest, next) && p in m
    requires m[p].requestId.None? && m[p].handle.None? && e.requestId == Some(next) && e.handle.None?
    ensures RequestsOk(m[p := e], byRequest[next := p], next + 1)
  {
  }

  lemma {:induction false} RequestFailed(m: Entries, byRequest: map<nat, Page>, next: nat, p: Page, e: Entry)
    requires RequestsOk(m, byRequest, next) && p in m
    requires m[p].requestId.None? && m[p].handle.None? && e.requestId.None? && e.handle.None?
    ensures RequestsOk(m[p := e], byRequest - {next}, next + 1)
  {
  }

  /** A request is answered, with a handle or with an error. */
  lemma {:induction false} RequestDone(m: Entries, byRequest: map<nat, Page>, next: nat, r: nat, e: Entry)
    requires RequestsOk(m, byRequest, next) && r in byRequest
    requires e.requestId == m[byRequest[r]].requestId || e.requestId.None?
    ensures RequestsOk(m[byRequest[r] := e], byRequest - {r}, next)
  {
  }

  lemma {:induction false} RefSame(m: Entries, handles: seq<Handle>, next: nat, p: Page, e: Entry)
    requires RefsOk(m, handles, next) && p in m && e.refCount == m[p].refCount && e.serial == m[p].serial
    ensures RefsOk(m[p := e], handles, next)
  {
  }

  lemma {:induction false} SyncChanged(m: Entries, p: Page, e: Entry)
    requires SyncOk(m) && EntryOk(e)
    ensures SyncOk(m[p := e])
  {
  }

  lemma {:induction false} EarlyChanged(m: Entries, ready: bool, before: bool, p: Page, e: Entry)
    requires EarlyOk(m, ready, before)
    requires before || (e.handle.None? && e.requestId.None?)
    ensures EarlyOk(m[p := e], ready, before)
  {
  }

  // ----- steps that keep the maps

  lemma {:induction false} EntryChangeKeeps(s: State, p: Page, e: Entry, log: seq<Record>)
    requires Inv(s) && p in s.entries && LogOk(log, s.nextRequestId)
    requires e.handle == s.entries[p].handle && e.requestId == s.entries[p].requestId
    requires e.refCount == s.entries[p].refCount && e.serial == s.entries[p].serial
    requires EntryOk(e)
    ensures Inv(s.(entries := s.entries[p := e], log := log))
  {
    hide OrderOk, HandlesOk, RequestsOk, RefsOk, SyncOk, LogOk, EntryOk;
    SameKeys(s.entries, s.order, p, e);
    HandleSame(s.entries, s.byHandle, p, e);
    RequestSame(s.entries, s.byRequest, s.nextRequestId, p, e);
    RefSame(s.entries, s.handles, s.nextSerial, p, e);
    SyncChanged(s.entries, p, e);
    EarlyChanged(s.entries, s.ready, s.connectedBefore, p, e);
  }

  lemma {:induction false} LocalEditKeeps(s: State, fate: Fate, p: Page, edit: Edit)
    requires Inv(s) && p in s.entries
    ensures Inv(LocalEdit(s, fate, p, edit))
  {
    hide OrderOk, HandlesOk, RequestsOk, RefsOk, EarlyOk, LogOk;
    var t := LocalEdit(s, fate, p, edit);
    if s.entries[p].handle.Some? {
      LogOther(s.log, s.nextRequestId, Attempt(UpdateFrame(s.entries[p].handle.value, {edit}), Sends(s, fate)));
    }
    EntryChangeKeeps(s, p, t.entries[p], t.log);
  }

  lemma {:induction false} OnStep1Keeps(s: State, fate: Fate, handle: nat, known: set<Edit>)
    requires Inv(s)
    ensures Inv(OnStep1(s, fate, handle, known))
  {
    hide OrderOk, HandlesOk, RequestsOk, RefsOk, EarlyOk, LogOk;
    var t := OnStep1(s, fate, handle, known);
    if handle in s.byHandle {
      HandleKnown(s, handle);
      var p := s.byHandle[handle];
      var log := s.log + [Named(handle, known)];
      LogOther(s.log, s.nextRequestId, Named(handle, known));
      LogOther(log, s.nextRequestId, Attempt(ReplyFrame(handle, s.entries[p].doc - known),
        Sends(Noted(s, Named(handle, known)), fate)));
      EntryIsOk(s, p);
      EntryChangeKeeps(s, p, t.entries[p], t.log);
    }
  }

  lemma {:induction false} HandleKnown(s: State, handle: nat)
    requires Inv(s) && handle in s.byHandle
    ensures s.byHandle[handle] in s.entries && s.entries[s.byHandle[handle]].handle == Some(handle)
  {
  }

  lemma {:induction false} OnStep2Keeps(s: State, handle: nat, edits: set<Edit>)
    requires Inv(s)
    ensures Inv(OnStep2(s, handle, edits))
  {
    hide OrderOk, HandlesOk, RequestsOk, RefsOk, EarlyOk, LogOk;
    if handle in s.byHandle {
      HandleKnown(s, handle);
      var t := OnStep2(s, handle, edits);
      LogOther(s.log, s.nextRequestId, Named(handle, edits));
      EntryChangeKeeps(s, s.byHandle[handle], t.entries[s.byHandle[handle]], t.log);
    }
  }

  lemma {:induction false} OnUpdateKeeps(s: State, handle: nat, edits: set<Edit>)
    requires Inv(s)
    ensures Inv(OnUpdate(s, handle, edits))
  {
    hide OrderOk, HandlesOk, RequestsOk, RefsOk, EarlyOk, LogOk;
    if handle in s.byHandle {
      HandleKnown(s, handle);
      var t := OnUpdate(s, handle, edits);
      LogOther(s.log, s.nextRequestId, Named(handle, edits));
      EntryIsOk(s, s.byHandle[handle]);
      EntryChangeKeeps(s, s.byHandle[handle], t.entries[s.byHandle[handle]], t.log);
    }
  }

  lemma {:induction false} OnRoleChangedKeeps(s: State, handle: nat, role: Role)
    requires Inv(s)
    ensures Inv(OnRoleChanged(s, handle, role))
  {
    hide OrderOk, HandlesOk, RequestsOk, RefsOk, EarlyOk, LogOk;
    if handle in s.byHandle {
      HandleKnown(s, handle);
      var t := OnRoleChanged(s, handle, role);
      EntryChangeKeeps(s, s.byHandle[handle], t.entries[s.byHandle[handle]], t.log);
    }
  }

  // ----- steps that change the maps

  lemma {:induction false} RequestKnown(s: State, id: nat)
    requires Inv(s) && id in s.byRequest
    ensures s.byRequest[id] in s.entries && s.connectedBefore
    ensures s.entries[s.byRequest[id]].requestId == Some(id) && s.entries[s.byRequest[id]].handle.None?
  {
  }

  lemma {:induction false} OnOpenAckKeeps(s: State, fate: Fate, id: nat, handle: nat, role: Role)
    requires Inv(s) && handle !in s.byHandle
    ensures Inv(OnOpenAck(s, fate, id, handle, role))
  {
    hide OrderOk, HandlesOk, RequestsOk, RefsOk, SyncOk, LogOk;
    if id in s.byRequest {
      RequestKnown(s, id);
      var p, t := s.byRequest[id], OnOpenAck(s, fate, id, handle, role);
      var e := t.entries[p];
      EntryIsOk(s, p);
      SameKeys(s.entries, s.order, p, e);
      HandleGained(s.entries, s.byHandle, p, e, handle);
      RequestDone(s.entries, s.byRequest, s.nextRequestId, id, e);
      RefSame(s.entries, s.handles, s.nextSerial, p, e);
      SyncChanged(s.entries, p, e);
      LogOther(s.log, s.nextRequestId, Issued(id, handle));
      LogOther(s.log + [Issued(id, handle)], s.nextRequestId, t.log[|t.log| - 1]);
    }
  }

  lemma {:induction false} EntryIsOk(s: State, p: Page)
    requires Inv(s) && p in s.entries
    ensures EntryOk(s.entries[p])
  {
  }

  lemma {:induction false} OnClosedKeeps(s: State, handle: nat, denied: bool)
    requires Inv(s)
    ensures Inv(OnClosed(s, handle, denied))
  {
    hide OrderOk, HandlesOk, RequestsOk, RefsOk, SyncOk, LogOk;
    if handle in s.byHandle {
      HandleKnown(s, handle);
      var p, t := s.byHandle[handle], OnClosed(s, handle, denied);
      var e := t.entries[p];
      EntryIsOk(s, p);
      SameKeys(s.entries, s.order, p, e);
      HandleLost(s.entries, s.byHandle, p, e, handle);
      RequestSame(s.entries, s.byRequest, s.nextRequestId, p, e);
      RefSame(s.entries, s.handles, s.nextSerial, p, e);
      SyncChanged(s.entries, p, e);
    }
  }

  lemma {:induction false} OnErrorKeeps(s: State, id: nat, denied: bool)
    requires Inv(s)
    ensures Inv(OnError(s, id, denied))
  {
    hide OrderOk, HandlesOk, RequestsOk, RefsOk, SyncOk, LogOk;
    if id in s.byRequest {
      RequestKnown(s, id);
      var p, status := s.byRequest[id], if denied then Denied else Offline;
      var e := s.entries[p].(requestId := None, status := status);
      EntryIsOk(s, p);
      SameKeys(s.entries, s.order, p, e);
      HandleSame(s.entries, s.byHandle, p, e);
      RequestDone(s.entries, s.byRequest, s.nextRequestId, id, e);
      RefSame(s.entries, s.handles, s.nextSerial, p, e);
      SyncChanged(s.entries, p, e);
    }
  }

  lemma {:induction false} RequestOpenKeeps(s: State, fate: Fate, p: Page)
    requires Inv(s) && p in s.entries && s.entries[p].handle.None? && s.entries[p].requestId.None?
    ensures Inv(RequestOpen(s, fate, p))
  {
    hide OrderOk, HandlesOk, RequestsOk, RefsOk, SyncOk, LogOk;
    var t := RequestOpen(s, fate, p);
    var e := t.entries[p];
    EntryIsOk(s, p);
    SameKeys(s.entries, s.order, p, e);
    HandleSame(s.entries, s.byHandle, p, e);
    if Sends(s, fate) {
      RequestMade(s.entries, s.byRequest, s.nextRequestId, p, e);
    } else {
      RequestFailed(s.entries, s.byRequest, s.nextRequestId, p, e);
    }
    RefSame(s.entries, s.handles, s.nextSerial, p, e);
    SyncChanged(s.entries, p, e);
    EarlyChanged(s.entries, s.ready, s.connectedBefore, p, e);
    LogOpen(s.log, s.nextRequestId, p, Sends(s, fate));
  }

  lemma {:induction false} DisconnectKeeps(s: State)
    requires Inv(s)
    ensures Inv(Disconnect(s))
  {
    hide Distinct, Live, LogOk;
    LogOther(s.log, s.nextRequestId, Lost);
    assert Disconnect(s).entries.Keys == s.entries.Keys;
  }

  lemma {:induction false} FatalKeeps(s: State, denied: bool)
    requires Inv(s)
    ensures Inv(Fatal(s, denied))
  {
    hide Distinct, Live, LogOk, Disconnect;
    DisconnectKeeps(s);
    assert Fatal(s, denied).entries.Keys == Disconnect(s).entries.Keys;
  }

  // ----- opening and releasing

  lemma {:induction false} LiveAppend(handles: seq<Handle>, h: Handle, p: Page)
    ensures Live(handles + [h], p) == Live(handles, p) + if IsLive(h, p) then 1 else 0
  {
    assert (handles + [h])[..|handles|] == handles;
  }

  lemma {:induction false} LiveUpdate(handles: seq<Handle>, i: nat, p: Page)
    requires i < |handles| && !handles[i].released
    ensures Live(handles[i := handles[i].(released := true)], p)
         == Live(handles, p) - if handles[i].page == p then 1 else 0
  {
    var n := |handles| - 1;
    var after := handles[i := handles[i].(released := true)];
    if i < n {
      LiveUpdate(handles[..n], i, p);
      assert after[..n] == handles[..n][i := handles[..n][i].(released := true)];
    } else {
      assert after[..n] == handles[..n];
    }
  }

  /** A page that is not held has no unreleased handle. */
  lemma {:induction false} NotHeldNotLive(m: Entries, handles: seq<Handle>, p: Page)
    requires p !in m && forall h <- handles :: !h.released ==> h.page in m
    ensures Live(handles, p) == 0
  {
    if handles != [] {
      NotHeldNotLive(m, handles[..|handles| - 1], p);
    }
  }

  /** No count means no handle. */
  lemma {:induction false} NoneLive(handles: seq<Handle>, p: Page)
    ensures Live(handles, p) == 0 <==> forall h <- handles :: !h.released ==> h.page != p
  {
    if handles != [] {
      var n := |handles| - 1;
      NoneLive(handles[..n], p);
      assert handles == handles[..n] + [handles[n]];
    }
  }

  lemma {:induction false} RefOpened(m: Entries, handles: seq<Handle>, next: nat, p: Page)
    requires RefsOk(m, handles, next) && p in m
    ensures RefsOk(m[p := m[p].(refCount := m[p].refCount + 1)], handles + [Handle(p, m[p].serial, false)], next)
  {
    hide Live;
    var h := Handle(p, m[p].serial, false);
    forall q ensures Live(handles + [h], q) == Live(handles, q) + if p == q then 1 else 0 {
      LiveAppend(handles, h, q);
    }
  }

  lemma {:induction false} RefCreated(m: Entries, handles: seq<Handle>, next: nat, p: Page, e: Entry)
    requires RefsOk(m, handles, next) && p !in m && e.refCount == 1 && e.serial == next
    ensures RefsOk(m[p := e], handles + [Handle(p, next, false)], next + 1)
  {
    hide Live;
    NotHeldNotLive(m, handles, p);
    forall q ensures Live(handles + [Handle(p, next, false)], q) == Live(handles, q) + if p == q then 1 else 0 {
      LiveAppend(handles, Handle(p, next, false), q);
    }
  }

  lemma {:induction false} RefReleased(m: Entries, handles: seq<Handle>, next: nat, i: nat, e: Entry)
    requires RefsOk(m, handles, next) && i < |handles| && !handles[i].released && handles[i].page in m
    requires e.refCount == m[handles[i].page].refCount - 1 && e.serial == m[handles[i].page].serial
    ensures RefsOk(m[handles[i].page := e], handles[i := handles[i].(released := true)], next)
  {
    hide Live;
    forall q ensures Live(handles[i := handles[i].(released := true)], q)
      == Live(handles, q) - if handles[i].page == q then 1 else 0 {
      LiveUpdate(handles, i, q);
    }
  }

  lemma {:induction false} OpenExistingKeeps(s: State, fate: Fate, p: Page, stored: set<Edit>)
    requires Inv(s) && p in s.entries
    ensures Inv(Open(s, fate, p, stored))
  {
    hide OrderOk, HandlesOk, RequestsOk, RefsOk, SyncOk, LogOk, EntryOk;
    var e := s.entries[p].(refCount := s.entries[p].refCount + 1);
    EntryIsOk(s, p);
    SameKeys(s.entries, s.order, p, e);
    HandleSame(s.entries, s.byHandle, p, e);
    RequestSame(s.entries, s.byRequest, s.nextRequestId, p, e);
    RefOpened(s.entries, s.handles, s.nextSerial, p);
    EntryIsOkAlso(s.entries[p], e);
    SyncChanged(s.entries, p, e);
    EarlyChanged(s.entries, s.ready, s.connectedBefore, p, e);
  }

  /** The reference count says nothing about the document. */
  lemma {:induction false} EntryIsOkAlso(e: Entry, e': Entry)
    requires EntryOk(e) && e' == e.(refCount := e'.refCount)
    ensures EntryOk(e')
  {
  }

  lemma {:induction false} EntryCreated(
      m: Entries, order: seq<Page>, byHandle: map<nat, Page>, byRequest: map<nat, Page>, next: nat, p: Page, e: Entry)
    requires OrderOk(m.Keys, order) && HandlesOk(m, byHandle) && RequestsOk(m, byRequest, next)
    requires p !in m && e.handle.None? && e.requestId.None?
    ensures OrderOk(m[p := e].Keys, order + [p])
    ensures HandlesOk(m[p := e], byHandle)
    ensures RequestsOk(m[p := e], byRequest, next)
  {
  }

  lemma {:induction false} OpenNewKeeps(s: State, fate: Fate, p: Page, stored: set<Edit>)
    requires Inv(s) && p !in s.entries
    ensures Inv(Open(s, fate, p, stored))
  {
    hide OrderOk, HandlesOk, RequestsOk, RefsOk, SyncOk, LogOk, RequestOpen;
    var n := s.nextSerial;
    var e := NewEntry(n, stored);
    var t := Put(s.(handles := s.handles + [Handle(p, n, false)], order := s.order + [p], nextSerial := n + 1), p, e);
    EntryCreated(s.entries, s.order, s.byHandle, s.byRequest, s.nextRequestId, p, e);
    RefCreated(s.entries, s.handles, n, p, e);
    SyncChanged(s.entries, p, e);
    EarlyChanged(s.entries, s.ready, s.connectedBefore, p, e);
    RequestOpenKeeps(t, fate, p);
  }

  lemma {:induction false} WithoutPageOk(order: seq<Page>, p: Page)
    requires Distinct(order)
    ensures Distinct(WithoutPage(order, p))
    ensures forall q :: q in WithoutPage(order, p) <==> q in order && q != p
  {
    if order != [] {
      var rest := order[1..];
      assert forall q :: q in order <==> q == order[0] || q in rest by {
        assert order == [order[0]] + rest;
      }
      assert order[0] !in rest;
      if order[0] != p {
        WithoutPageOk(rest, p);
        ConsDistinct(order[0], WithoutPage(rest, p));
      }
    }
  }

  lemma {:induction false} ConsDistinct<T>(x: T, s: seq<T>)
    requires Distinct(s) && x !in s
    ensures Distinct([x] + s)
  {
    var t := [x] + s;
    forall i, j | 0 <= i < j < |t| ensures t[i] != t[j] {
      assert i > 0 ==> t[i] == s[i - 1];
      assert t[j] == s[j - 1];
    }
  }

  lemma {:induction false} EntryRemoved(
      m: Entries, order: seq<Page>, byHandle: map<nat, Page>, byRequest: map<nat, Page>, next: nat, p: Page)
    requires OrderOk(m.Keys, order) && HandlesOk(m, byHandle) && RequestsOk(m, byRequest, next) && p in m
    ensures OrderOk((m - {p}).Keys, WithoutPage(order, p))
    ensures HandlesOk(m - {p}, if m[p].handle.Some? then byHandle - {m[p].handle.value} else byHandle)
    ensures RequestsOk(m - {p}, if m[p].requestId.Some? then byRequest - {m[p].requestId.value} else byRequest, next)
  {
    hide OrderOk, HandlesOk, RequestsOk, WithoutPage;
    OrderRemoved(m, order, p);
    HandleRemoved(m, byHandle, p);
    RequestRemoved(m, byRequest, next, p);
  }

  lemma {:induction false} OrderRemoved(m: Entries, order: seq<Page>, p: Page)
    requires OrderOk(m.Keys, order)
    ensures OrderOk((m - {p}).Keys, WithoutPage(order, p))
  {
    WithoutPageOk(order, p);
  }

  lemma {:induction false} HandleRemoved(m: Entries, byHandle: map<nat, Page>, p: Page)
    requires HandlesOk(m, byHandle) && p in m
    ensures HandlesOk(m - {p}, if m[p].handle.Some? then byHandle - {m[p].handle.value} else byHandle)
  {
  }

  lemma {:induction false} RequestRemoved(m: Entries, byRequest: map<nat, Page>, next: nat, p: Page)
    requires RequestsOk(m, byRequest, next) && p in m
    ensures RequestsOk(m - {p}, if m[p].requestId.Some? then byRequest - {m[p].requestId.value} else byRequest, next)
  {
  }

  lemma {:induction false} RefsRemoved(m: Entries, handles: seq<Handle>, next: nat, p: Page)
    requires RefsOk(m, handles, next) && p in m && m[p].refCount <= 0
    ensures RefsOk(m - {p}, handles, next)
  {
    NoneLive(handles, p);
  }

  lemma {:induction false} DiscardKeeps(s: State, fate: Fate, p: Page)
    requires Inv(s) && p in s.entries && s.entries[p].refCount <= 0
    ensures Inv(Discard(s, fate, p))
  {
    hide OrderOk, HandlesOk, RequestsOk, RefsOk, LogOk, EntryOk, WithoutPage;
    EntryRemoved(s.entries, s.order, s.byHandle, s.byRequest, s.nextRequestId, p);
    RefsRemoved(s.entries, s.handles, s.nextSerial, p);
    if s.entries[p].handle.Some? {
      LogOther(s.log, s.nextRequestId, Attempt(CloseFrame(s.entries[p].handle.value), Sends(s, fate)));
    }
  }

  lemma {:induction false} ReleaseKeeps(s: State, fate: Fate, h: nat)
    requires Inv(s)
    ensures Inv(Release(s, fate, h))
  {
    hide OrderOk, HandlesOk, RequestsOk, RefsOk, SyncOk, LogOk, EntryOk, Discard;
    if h < |s.handles| && !s.handles[h].released && s.handles[h].page in s.entries {
      var p := s.handles[h].page;
      var e := s.entries[p].(refCount := s.entries[p].refCount - 1);
      var t := s.(handles := s.handles[h := s.handles[h].(released := true)], entries := s.entries[p := e]);
      SameKeys(s.entries, s.order, p, e);
      HandleSame(s.entries, s.byHandle, p, e);
      RequestSame(s.entries, s.byRequest, s.nextRequestId, p, e);
      RefReleased(s.entries, s.handles, s.nextSerial, h, e);
      EntryIsOk(s, p);
      EntryIsOkAlso(s.entries[p], e);
      SyncChanged(s.entries, p, e);
      EarlyChanged(s.entries, s.ready, s.connectedBefore, p, e);
      if e.refCount <= 0 && e.synced {
        DiscardKeeps(t, fate, p);
      }
    }
  }

  // ----- authentication

  lemma {:induction false} RetryKeeps(s: State, fate: Fate, p: Page)
    requires Inv(s)
    ensures Inv(Retry(s, fate, p))
  {
    hide OrderOk, HandlesOk, RequestsOk, RefsOk, SyncOk, LogOk, RequestOpen;
    if p in s.entries && s.entries[p].handle.None? && s.entries[p].requestId.None? {
      EntryIsOk(s, p);
      EntryChangeKeeps(s, p, s.entries[p].(status := Opening), s.log);
      RequestOpenKeeps(Put(s, p, s.entries[p].(status := Opening)), fate, p);
    }
  }

  lemma {:induction false} RetryAllKeeps(s: State, fate: Fate, pages: seq<Page>)
    requires Inv(s)
    ensures Inv(RetryAll(s, fate, pages))
    decreases |pages|
  {
    hide Inv, Retry;
    if pages != [] {
      RetryKeeps(s, fate, pages[0]);
      RetryAllKeeps(Retry(s, fate, pages[0]), fate, pages[1..]);
    }
  }

  /** In the middle of a reconnect: the pages in `rest` still carry links of the old connection. */
  ghost predicate ReopeningLinks(m: Entries, byRequest: map<nat, Page>, next: nat, rest: seq<Page>) {
    && (forall p <- m :: p !in rest ==> m[p].handle.None?)
    && (forall r <- byRequest :: byRequest[r] in m && byRequest[r] !in rest && m[byRequest[r]].requestId == Some(r))
    && FreshIds(m, next)
  }

  ghost predicate Reopening(s: State, rest: seq<Page>) {
    && OrderOk(s.entries.Keys, s.order)
    && s.byHandle == map[]
    && ReopeningLinks(s.entries, s.byRequest, s.nextRequestId, rest)
    && RefsOk(s.entries, s.handles, s.nextSerial)
    && SyncOk(s.entries)
    && LogOk(s.log, s.nextRequestId)
    && s.connectedBefore
  }

  lemma {:induction false} ReopenMade(m: Entries, byRequest: map<nat, Page>, next: nat, rest: seq<Page>, e: Entry)
    requires Distinct(rest) && rest != [] && ReopeningLinks(m, byRequest, next, rest) && rest[0] in m
    requires e.handle.None? && e.requestId == Some(next)
    ensures ReopeningLinks(m[rest[0] := e], byRequest[next := rest[0]], next + 1, rest[1..])
  {
    hide Distinct;
    HeadAndTail(rest);
  }

  lemma {:induction false} ReopenFailed(m: Entries, byRequest: map<nat, Page>, next: nat, rest: seq<Page>, e: Entry)
    requires Distinct(rest) && rest != [] && ReopeningLinks(m, byRequest, next, rest) && rest[0] in m
    requires e.handle.None? && e.requestId.None?
    ensures ReopeningLinks(m[rest[0] := e], byRequest - {next}, next + 1, rest[1..])
  {
    hide Distinct;
    HeadAndTail(rest);
  }

  lemma {:induction false} ReopenStep(s: State, fate: Fate, rest: seq<Page>)
    requires Distinct(rest) && rest != [] && Reopening(s, rest) && rest[0] in s.entries
    ensures Reopening(Reopen(s, fate, rest[0]), rest[1..])
  {
    hide OrderOk, RefsOk, SyncOk, LogOk, Distinct, ReopeningLinks;
    var p, t := rest[0], Reopen(s, fate, rest[0]);
    var e := t.entries[p];
    assert t.entries == s.entries[p := e];
    if Sends(s, fate) {
      ReopenMade(s.entries, s.byRequest, s.nextRequestId, rest, e);
    } else {
      ReopenFailed(s.entries, s.byRequest, s.nextRequestId, rest, e);
    }
    SameKeys(s.entries, s.order, p, e);
    RefSame(s.entries, s.handles, s.nextSerial, p, e);
    SyncMember(s.entries, p);
    SyncChanged(s.entries, p, e);
    LogOpen(s.log, s.nextRequestId, p, Sends(s, fate));
  }

  lemma {:induction false} SyncMember(m: Entries, p: Page)
    requires SyncOk(m) && p in m
    ensures EntryOk(m[p])
  {
  }

  lemma {:induction false} HeadAndTail<T>(s: seq<T>)
    requires s != [] && Distinct(s)
    ensures forall x :: x in s <==> x == s[0] || x in s[1..]
    ensures s[0] !in s[1..] && Distinct(s[1..])
  {
    assert s == [s[0]] + s[1..];
  }

  lemma {:induction false} ReopenAllKeeps(s: State, fate: Fate, rest: seq<Page>)
    requires Distinct(rest) && Reopening(s, rest) && forall p <- rest :: p in s.entries
    ensures Reopening(ReopenAll(s, fate, rest), [])
    decreases |rest|
  {
    hide Reopening, Distinct;
    if rest != [] {
      HeadAndTail(rest);
      ReopenStep(s, fate, rest);
      ReopenAllKeeps(Reopen(s, fate, rest[0]), fate, rest[1..]);
    }
  }

  lemma {:induction false} ReconnectKeeps(s: State, fate: Fate)
    requires Inv(s) && s.connectedBefore
    ensures Inv(Reconnect(s, fate))
  {
    hide LogOk, RefsOk, SyncOk, FreshIds, Distinct;
    ReopenAllKeeps(s.(byHandle := map[], byRequest := map[]), fate, s.order);
  }

  lemma {:induction false} AuthAckKeeps(s: State, fate: Fate)
    requires Inv(s)
    ensures Inv(AuthAck(s, fate))
  {
    hide OrderOk, HandlesOk, RequestsOk, RefsOk, SyncOk, LogOk, RetryAll, Reconnect;
    var t := s.(ready := true, connectedBefore := true);
    RetryAllKeeps(t, fate, t.order);
    if s.connectedBefore {
      RetryAllFrame(t, fate, t.order);
      ReconnectKeeps(RetryAll(t, fate, t.order), fate);
    }
  }

  lemma {:induction false} RetryAllFrame(s: State, fate: Fate, pages: seq<Page>)
    ensures RetryAll(s, fate, pages).connectedBefore == s.connectedBefore
    ensures RetryAll(s, fate, pages).order == s.order
    decreases |pages|
  {
    if pages != [] {
      RetryAllFrame(Retry(s, fate, pages[0]), fate, pages[1..]);
    }
  }

  // ----- runs

  lemma {:induction false} InitialOk()
    ensures Inv(INITIAL)
  {
  }

  /** Every step the store may expect keeps the invariant. */
  lemma {:induction false} StepKeeps(s: State, fate: Fate, ev: Event)
    requires Inv(s) && Expected(s, ev)
    ensures Inv(Step(s, fate, ev))
  {
    hide Inv;
    match ev
    case EvOpen(page, stored) =>
      if page in s.entries {
        OpenExistingKeeps(s, fate, page, stored);
      } else {
        OpenNewKeeps(s, fate, page, stored);
      }
    case EvRelease(h) => ReleaseKeeps(s, fate, h);
    case EvEdit(page, edit) =>
      if page in s.entries {
        LocalEditKeeps(s, fate, page, edit);
      }
    case EvOpenAck(id, handle, role) => OnOpenAckKeeps(s, fate, id, handle, role);
    case EvStep1(handle, known) => OnStep1Keeps(s, fate, handle, known);
    case EvStep2(handle, edits) => OnStep2Keeps(s, handle, edits);
    case EvUpdate(handle, edits) => OnUpdateKeeps(s, handle, edits);
    case EvClosed(handle, denied) => OnClosedKeeps(s, handle, denied);
    case EvRoleChanged(handle, role) => OnRoleChangedKeeps(s, handle, role);
    case EvError(id, denied) => OnErrorKeeps(s, id, denied);
    case EvDisconnect => DisconnectKeeps(s);
    case EvAuthAck => AuthAckKeeps(s, fate);
    case EvFatal(denied) => FatalKeeps(s, denied);
  }

  /** Every state of every expected run satisfies the invariant, whichever sends fail. */
  lemma {:induction false} RunKeeps(s: State, fate: Fate, evs: seq<Event>)
    requires Inv(s) && ExpectedRun(s, fate, evs)
    ensures Inv(Run(s, fate, evs))
    decreases |evs|
  {
    hide Inv, Step, Expected;
    if evs != [] {
      StepKeeps(s, fate, evs[0]);
      RunKeeps(Step(s, fate, evs[0]), fate, evs[1..]);
    }
  }

  // ----- what follows

  /** `s` is a state of some expected run from the start. */
  ghost predicate Reachable(s: State, fate: Fate) {
    exists evs :: ExpectedRun(INITIAL, fate, evs) && s == Run(INITIAL, fate, evs)
  }

  lemma {:induction false} ReachableInv(s: State, fate: Fate)
    requires Reachable(s, fate)
    ensures Inv(s)
  {
    hide Inv, Step, Expected;
    InitialOk();
    var evs :| ExpectedRun(INITIAL, fate, evs) && s == Run(INITIAL, fate, evs);
    RunKeeps(INITIAL, fate, evs);
  }

  /** In every run: two unreleased handles of one page are on the same document, the one held for the page. */
  lemma {:induction false} HandlesShareOneDocument(s: State, fate: Fate, h: nat, k: nat)
    requires Reachable(s, fate) && h < |s.handles| && k < |s.handles|
    requires !s.handles[h].released && !s.handles[k].released
    ensures s.handles[h].page in s.entries && s.entries[s.handles[h].page].serial == s.handles[h].serial
    ensures s.handles[h].serial == s.handles[k].serial <==> s.handles[h].page == s.handles[k].page
  {
    hide Reachable, OrderOk, HandlesOk, RequestsOk, SyncOk, EarlyOk, LogOk;
    ReachableInv(s, fate);
    assert s.handles[h] in s.handles && s.handles[k] in s.handles;
  }

  lemma {:induction false} OnlyReleaseDiscards(s: State, fate: Fate, ev: Event, p: Page)
    requires p in s.entries && p !in Step(s, fate, ev).entries
    ensures ev.EvRelease? && s.entries[p].synced
  {
    if ev.EvRelease? {
      ReleaseDiscardsSynced(s, fate, ev.h, p);
    } else if ev.EvAuthAck? {
      AuthAckHolds(s, fate);
    } else if ev.EvOpen? || ev.EvEdit? || ev.EvDisconnect? || ev.EvFatal? {
      LocalStepsHold(s, fate, ev);
    } else {
      FramesHold(s, fate, ev);
    }
  }

  lemma {:induction false} LocalStepsHold(s: State, fate: Fate, ev: Event)
    requires ev.EvOpen? || ev.EvEdit? || ev.EvDisconnect? || ev.EvFatal?
    ensures s.entries.Keys <= Step(s, fate, ev).entries.Keys
  {
    hide AuthAck, Release, Open, LocalEdit, Dropped, Revoked;
    match ev
    case EvOpen(page, stored) => OpenHolds(s, fate, page, stored);
    case EvEdit(page, edit) =>
      if page in s.entries {
        EditHolds(s, fate, page, edit);
      }
    case _ =>
  }

  lemma {:induction false} OpenHolds(s: State, fate: Fate, p: Page, stored: set<Edit>)
    ensures s.entries.Keys <= Open(s, fate, p, stored).entries.Keys
  {
  }

  lemma {:induction false} EditHolds(s: State, fate: Fate, p: Page, edit: Edit)
    requires p in s.entries
    ensures s.entries.Keys == LocalEdit(s, fate, p, edit).entries.Keys
  {
  }

  lemma {:induction false} FramesHold(s: State, fate: Fate, ev: Event)
    requires !(ev.EvOpen? || ev.EvEdit? || ev.EvDisconnect? || ev.EvFatal? || ev.EvRelease? || ev.EvAuthAck?)
    ensures s.entries.Keys == Step(s, fate, ev).entries.Keys
  {
    hide AuthAck, Release, Open, LocalEdit, Disconnect, Fatal, Settled, Received;
  }

  lemma {:induction false} ReleaseDiscardsSynced(s: State, fate: Fate, h: nat, p: Page)
    requires p in s.entries && p !in Release(s, fate, h).entries
    ensures s.entries[p].synced
  {
  }

  lemma {:induction false} AuthAckHolds(s: State, fate: Fate)
    ensures AuthAck(s, fate).entries.Keys == s.entries.Keys
  {
    var t := s.(ready := true, connectedBefore := true);
    var u := RetryAll(t, fate, t.order);
    RetryAllHolds(t, fate, t.order);
    ReopenAllHolds(u.(byHandle := map[], byRequest := map[]), fate, u.order);
  }

  lemma {:induction false} RetryAllHolds(s: State, fate: Fate, pages: seq<Page>)
    ensures RetryAll(s, fate, pages).entries.Keys == s.entries.Keys
    decreases |pages|
  {
    if pages != [] {
      RetryAllHolds(Retry(s, fate, pages[0]), fate, pages[1..]);
    }
  }

  lemma {:induction false} ReopenAllHolds(s: State, fate: Fate, pages: seq<Page>)
    ensures ReopenAll(s, fate, pages).entries.Keys == s.entries.Keys
    decreases |pages|
  {
    if pages != [] {
      ReopenAllHolds(Reopen(s, fate, pages[0]), fate, pages[1..]);
    }
  }

  // ----- requests

  /** Everything tracked was requested under an id of at least `n`. */
  ghost predicate RequestsFrom(s: State, n: nat) {
    n <= s.nextRequestId && forall r <- s.byRequest :: r >= n
  }

  lemma {:induction false} RequestOpenFrom(s: State, fate: Fate, p: Page, n: nat)
    requires p in s.entries && RequestsFrom(s, n)
    ensures RequestsFrom(RequestOpen(s, fate, p), n)
  {
  }

  lemma {:induction false} RetryAllFrom(s: State, fate: Fate, pages: seq<Page>, n: nat)
    requires RequestsFrom(s, n)
    ensures RequestsFrom(RetryAll(s, fate, pages), n)
    decreases |pages|
  {
    hide RequestsFrom, RequestOpen;
    if pages != [] {
      var p := pages[0];
      if p in s.entries && s.entries[p].handle.None? && s.entries[p].requestId.None? {
        SameRequests(s, Put(s, p, s.entries[p].(status := Opening)), n);
        RequestOpenFrom(Put(s, p, s.entries[p].(status := Opening)), fate, p, n);
      }
      RetryAllFrom(Retry(s, fate, p), fate, pages[1..], n);
    }
  }

  lemma {:induction false} SameRequests(s: State, t: State, n: nat)
    requires RequestsFrom(s, n) && t.nextRequestId == s.nextRequestId && t.byRequest.Keys <= s.byRequest.Keys
    ensures RequestsFrom(t, n)
  {
  }

  lemma {:induction false} ReopenAllFrom(s: State, fate: Fate, pages: seq<Page>, n: nat)
    requires RequestsFrom(s, n)
    ensures RequestsFrom(ReopenAll(s, fate, pages), n)
    decreases |pages|
  {
    hide RequestsFrom, RequestOpen;
    if pages != [] {
      var p := pages[0];
      if p in s.entries {
        var t := Put(s, p, s.entries[p].(handle := None, requestId := None, status := Opening));
        SameRequests(s, t, n);
        RequestOpenFrom(t, fate, p, n);
      }
      ReopenAllFrom(Reopen(s, fate, p), fate, pages[1..], n);
    }
  }

  lemma {:induction false} StepFrom(s: State, fate: Fate, ev: Event, n: nat)
    requires RequestsFrom(s, n)
    ensures RequestsFrom(Step(s, fate, ev), n)
  {
    if ev.EvAuthAck? {
      AuthAckFrom(s, fate, n);
    } else if ev.EvOpen? {
      OpenFrom(s, fate, ev.page, ev.stored, n);
    } else {
      OtherStepsRequestNothing(s, fate, ev);
      SameRequests(s, Step(s, fate, ev), n);
    }
  }

  lemma {:induction false} OtherStepsRequestNothing(s: State, fate: Fate, ev: Event)
    requires !ev.EvAuthAck? && !ev.EvOpen?
    ensures Step(s, fate, ev).nextRequestId == s.nextRequestId
    ensures Step(s, fate, ev).byRequest.Keys <= s.byRequest.Keys
  {
    hide AuthAck, Open, Settled, Received, Unsent, Dropped, Revoked, WithoutPage;
  }

  lemma {:induction false} OpenFrom(s: State, fate: Fate, p: Page, stored: set<Edit>, n: nat)
    requires RequestsFrom(s, n)
    ensures RequestsFrom(Open(s, fate, p, stored), n)
  {
  }

  lemma {:induction false} AuthAckFrom(s: State, fate: Fate, n: nat)
    requires RequestsFrom(s, n)
    ensures RequestsFrom(AuthAck(s, fate), n)
  {
    hide RequestsFrom, RetryAll, ReopenAll;
    var t := s.(ready := true, connectedBefore := true);
    SameRequests(s, t, n);
    RetryAllFrom(t, fate, t.order, n);
    var u := RetryAll(t, fate, t.order);
    SameRequests(u, u.(byHandle := map[], byRequest := map[]), n);
    ReopenAllFrom(u.(byHandle := map[], byRequest := map[]), fate, u.order, n);
  }

  lemma {:induction false} RunFrom(s: State, fate: Fate, evs: seq<Event>, n: nat)
    requires RequestsFrom(s, n)
    ensures RequestsFrom(Run(s, fate, evs), n)
    decreases |evs|
  {
    hide RequestsFrom, Step;
    if evs != [] {
      StepFrom(s, fate, evs[0], n);
      RunFrom(Step(s, fate, evs[0]), fate, evs[1..], n);
    }
  }

  /**
    An answer to a request made before a reconnect is ignored for ever after: whatever happens later,
    an acknowledgement or an error carrying such an id changes nothing.
   */
  lemma {:induction false} StaleAnswersAreIgnored(
      s: State, fate: Fate, evs: seq<Event>, id: nat, handle: nat, role: Role, denied: bool)
    requires s.connectedBefore && id < s.nextRequestId
    ensures var t := Run(Reconnect(s, fate), fate, evs);
      OnOpenAck(t, fate, id, handle, role) == t && OnError(t, id, denied) == t
  {
    hide Run, ReopenAll;
    var cleared := s.(byHandle := map[], byRequest := map[]);
    ReopenAllFrom(cleared, fate, s.order, s.nextRequestId);
    RunFrom(Reconnect(s, fate), fate, evs, s.nextRequestId);
  }

  // ----- after an authentication

  /** The attempt at `n` was the last open request for `p`: tracked alone if it was sent, and not tracked if not. */
  ghost predicate Requested(s: State, p: Page, n: nat)
    requires n < |s.log| && p in s.entries
  {
    var e, a := s.entries[p], s.log[n];
    && IsOpen(a) && a.frame.page == p
    && e.handle.None?
    && e.requestId == (if a.sent then Some(a.frame.id) else None)
    && (forall r <- s.byRequest :: s.byRequest[r] == p <==> a.sent && r == a.frame.id)
    && (a.sent ==> a.frame.id in s.byRequest)
  }

  ghost predicate RequestedSince(s: State, p: Page, from: nat) {
    p in s.entries && exists n :: from <= n < |s.log| && Requested(s, p, n)
  }

  lemma {:induction false} RequestOpenRequests(s: State, fate: Fate, p: Page)
    requires p in s.entries && s.entries[p].handle.None?
    requires forall r <- s.byRequest :: s.byRequest[r] != p && r < s.nextRequestId
    ensures Requested(RequestOpen(s, fate, p), p, |s.log|)
  {
  }

  /** Requesting another page does not disturb what was requested for this one. */
  lemma {:induction false} RequestOpenLeavesOthers(s: State, fate: Fate, q: Page, p: Page, from: nat)
    requires q in s.entries && q != p && RequestedSince(s, p, from) && forall r <- s.byRequest :: r < s.nextRequestId
    ensures RequestedSince(RequestOpen(s, fate, q), p, from)
  {
    var t := RequestOpen(s, fate, q);
    var n :| from <= n < |s.log| && Requested(s, p, n);
    assert t.log[n] == s.log[n];
    assert Requested(t, p, n);
  }

  lemma {:induction false} OtherEntryChanged(s: State, q: Page, e: Entry, p: Page, from: nat)
    requires q != p && RequestedSince(s, p, from)
    ensures RequestedSince(Put(s, q, e), p, from)
  {
    var n :| from <= n < |s.log| && Requested(s, p, n);
    assert Requested(Put(s, q, e), p, n);
  }

  lemma {:induction false} LastIsSince(s: State, p: Page, from: nat)
    requires p in s.entries && from < |s.log| && Requested(s, p, |s.log| - 1)
    ensures RequestedSince(s, p, from)
  {
  }

  ghost predicate IdsBelow(s: State) {
    forall r <- s.byRequest :: r < s.nextRequestId
  }

  /** The loop of a reconnect requests every page it goes through, and leaves the others as they were. */
  lemma {:induction false} ReopenAllRequests(s: State, fate: Fate, rest: seq<Page>, p: Page, from: nat)
    requires Distinct(rest) && (forall q <- rest :: q in s.entries) && IdsBelow(s) && from <= |s.log|
    requires if p in rest then forall r <- s.byRequest :: s.byRequest[r] !in rest else RequestedSince(s, p, from)
    requires forall r <- s.byRequest :: s.byRequest[r] !in rest
    ensures RequestedSince(ReopenAll(s, fate, rest), p, from)
    decreases |rest|
  {
    hide Distinct, RequestedSince;
    if rest != [] {
      HeadAndTail(rest);
      ReopenRequests(s, fate, rest[0], p, from);
      ReopenAllRequests(Reopen(s, fate, rest[0]), fate, rest[1..], p, from);
    }
  }

  lemma {:induction false} RequestOpenShape(s: State, fate: Fate, q: Page)
    requires q in s.entries && IdsBelow(s)
    ensures var t := RequestOpen(s, fate, q);
      && IdsBelow(t) && |t.log| == |s.log| + 1 && t.entries.Keys == s.entries.Keys
      && (forall x <- s.entries :: x != q ==> t.entries[x] == s.entries[x])
      && (forall r <- t.byRequest :: t.byRequest[r] == q || (r in s.byRequest && t.byRequest[r] == s.byRequest[r]))
  {
  }

  lemma {:induction false} ReopenRequests(s: State, fate: Fate, q: Page, p: Page, from: nat)
    requires q in s.entries && IdsBelow(s) && from <= |s.log| && forall r <- s.byRequest :: s.byRequest[r] != q
    ensures var t := Reopen(s, fate, q);
      && IdsBelow(t) && |t.log| == |s.log| + 1 && t.entries.Keys == s.entries.Keys
      && (forall r <- t.byRequest :: t.byRequest[r] == q || (r in s.byRequest && t.byRequest[r] == s.byRequest[r]))
    ensures q == p || RequestedSince(s, p, from) ==> RequestedSince(Reopen(s, fate, q), p, from)
  {
    hide RequestOpen, RequestedSince;
    var u := Put(s, q, s.entries[q].(handle := None, requestId := None, status := Opening));
    RequestOpenShape(u, fate, q);
    if q == p {
      RequestOpenRequests(u, fate, p);
      LastIsSince(RequestOpen(u, fate, p), p, from);
    } else if RequestedSince(s, p, from) {
      OtherEntryChanged(s, q, u.entries[q], p, from);
      RequestOpenLeavesOthers(u, fate, q, p, from);
    }
  }

  /** A page waiting for nothing: neither a handle nor a request. */
  ghost predicate Idle(s: State, p: Page) {
    p in s.entries && s.entries[p].handle.None? && s.entries[p].requestId.None?
  }

  /** On a first authentication everything held is idle, and each page is requested. */
  lemma {:induction false} RetryAllRequests(s: State, fate: Fate, rest: seq<Page>, p: Page, from: nat)
    requires Distinct(rest) && (forall q <- rest :: Idle(s, q)) && IdsBelow(s) && from <= |s.log|
    requires p in rest || RequestedSince(s, p, from)
    requires forall r <- s.byRequest :: s.byRequest[r] !in rest
    ensures RequestedSince(RetryAll(s, fate, rest), p, from)
    decreases |rest|
  {
    hide Distinct, RequestedSince;
    if rest != [] {
      HeadAndTail(rest);
      assert Idle(s, rest[0]);
      RetryRequests(s, fate, rest[0], p, from);
      RetryAllRequests(Retry(s, fate, rest[0]), fate, rest[1..], p, from);
    }
  }

  lemma {:induction false} RetryRequests(s: State, fate: Fate, q: Page, p: Page, from: nat)
    requires Idle(s, q) && IdsBelow(s) && from <= |s.log| && forall r <- s.byRequest :: s.byRequest[r] != q
    ensures var t := Retry(s, fate, q);
      && IdsBelow(t) && |t.log| == |s.log| + 1
      && (forall x :: x != q && Idle(s, x) ==> Idle(t, x))
      && (forall r <- t.byRequest :: t.byRequest[r] == q || (r in s.byRequest && t.byRequest[r] == s.byRequest[r]))
    ensures q == p || RequestedSince(s, p, from) ==> RequestedSince(Retry(s, fate, q), p, from)
  {
    hide RequestOpen, RequestedSince;
    var u := Put(s, q, s.entries[q].(status := Opening));
    RequestOpenShape(u, fate, q);
    if q == p {
      RequestOpenRequests(u, fate, p);
      LastIsSince(RequestOpen(u, fate, p), p, from);
    } else if RequestedSince(s, p, from) {
      OtherEntryChanged(s, q, u.entries[q], p, from);
      RequestOpenLeavesOthers(u, fate, q, p, from);
    }
  }

  lemma {:induction false} RetryAllLog(s: State, fate: Fate, pages: seq<Page>)
    ensures |s.log| <= |RetryAll(s, fate, pages).log|
    decreases |pages|
  {
    if pages != [] {
      RetryAllLog(Retry(s, fate, pages[0]), fate, pages[1..]);
    }
  }

  lemma {:induction false} IdleBeforeFirst(s: State)
    requires Inv(s) && !s.connectedBefore
    ensures s.byRequest == map[] && forall q <- s.order :: Idle(s, q)
  {
    forall r | r in s.byRequest ensures false {
      RequestKnown(s, r);
    }
  }

  /**
    After every authentication, first or later, each held document has exactly one tracked outstanding
    open request, or the send of its request failed.
   */
  lemma {:induction false} AuthenticationRequestsAll(s: State, fate: Fate, p: Page)
    requires Reachable(s, fate) && p in s.entries
    ensures RequestedSince(AuthAck(s, fate), p, |s.log|)
  {
    hide OrderOk, HandlesOk, RequestsOk, RefsOk, SyncOk, LogOk, RetryAll, ReopenAll, Distinct, RequestedSince,
        Reachable;
    ReachableInv(s, fate);
    var t := s.(ready := true, connectedBefore := true);
    OrderListsAll(s);
    if s.connectedBefore {
      RetryAllKeeps(t, fate, t.order);
      RetryAllLog(t, fate, t.order);
      RetryAllHolds(t, fate, t.order);
      RetryAllFrame(t, fate, t.order);
      var u := RetryAll(t, fate, t.order);
      OrderListsAll(u);
      ReopenAllRequests(u.(byHandle := map[], byRequest := map[]), fate, u.order, p, |s.log|);
    } else {
      IdleBeforeFirst(s);
      forall q <- s.order ensures Idle(t, q) {
        assert Idle(s, q);
      }
      RetryAllRequests(t, fate, t.order, p, |s.log|);
    }
  }

  lemma {:induction false} OrderListsAll(s: State)
    requires OrderOk(s.entries.Keys, s.order)
    ensures Distinct(s.order) && forall p :: p in s.order <==> p in s.entries
  {
  }
}

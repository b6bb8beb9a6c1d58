/**
  The client document store as a state machine (packages/client/src/store.ts), with the parts of
  packages/client/src/connection.ts that drive it.

  A Y.Doc is the set of edits it holds. The connection is a `ready` flag and a `fate` that decides,
  for the n-th record of the log, whether a send on a ready connection succeeds. What is in the log is
  history that no step reads: every frame the store tried to send, every handle it took, every set of edits the server
  named, and every loss of the connection.
 */
module StoreSpec {
  import opened Common

  type Page = string
  type Role = string

  /** An edit, identified as Yjs does. */
  datatype Edit = Edit(client: nat, clock: nat)

  datatype Status = Opening | Syncing | Synced | Offline | Denied

  /** A held document. The serial is the identity of the object: no two entries ever made share one. */
  datatype Entry = Entry(
    serial: nat, refCount: int, handle: Option<nat>, requestId: Option<nat>, role: Option<Role>,
    status: Status, synced: bool, doc: set<Edit>)

  datatype Frame =
    | OpenFrame(id: nat, page: Page)
    | Step1Frame(handle: nat)
    | ReplyFrame(handle: nat, edits: set<Edit>)
    | UpdateFrame(handle: nat, edits: set<Edit>)
    | CloseFrame(handle: nat)

  datatype Record =
    | Attempt(frame: Frame, sent: bool)
    | Issued(id: nat, handle: nat)
    | Named(handle: nat, edits: set<Edit>)
    | Lost

  /** A counted handle given to a caller, on the entry with that serial. */
  datatype Handle = Handle(page: Page, serial: nat, released: bool)

  datatype State = State(
    entries: map<Page, Entry>, order: seq<Page>,
    byHandle: map<nat, Page>, byRequest: map<nat, Page>, nextRequestId: nat,
    ready: bool, connectedBefore: bool, log: seq<Record>, handles: seq<Handle>, nextSerial: nat)

  type Fate = nat -> bool

  const INITIAL: State := State(map[], [], map[], map[], 1, false, false, [], [], 0)

  // ----- sending

  /** A send reaches the socket only on a ready connection, and may fail even then. */
  predicate Sends(s: State, fate: Fate) {
    s.ready && fate(|s.log|)
  }

  function Logged(s: State, fate: Fate, f: Frame): State {
    s.(log := s.log + [Attempt(f, Sends(s, fate))])
  }

  function Noted(s: State, r: Record): State {
    s.(log := s.log + [r])
  }

  function Put(s: State, p: Page, e: Entry): State {
    s.(entries := s.entries[p := e])
  }

  // ----- opening

  function RequestOpen(s: State, fate: Fate, p: Page): State
    requires p in s.entries
  {
    var id, e := s.nextRequestId, s.entries[p];
    var t := Logged(s, fate, OpenFrame(id, p)).(nextRequestId := id + 1);
    if Sends(s, fate) then
      Put(t, p, e.(requestId := Some(id))).(byRequest := s.byRequest[id := p])
    else
      Put(t, p, e.(requestId := None, status := Opening)).(byRequest := s.byRequest - {id})
  }

  function NewEntry(serial: nat, stored: set<Edit>): Entry {
    Entry(serial, 1, None, None, None, Opening, false, stored)
  }

  /** Open a page; `stored` is what a new document holds before its observers are attached. */
  function Open(s: State, fate: Fate, p: Page, stored: set<Edit>): State {
    if p in s.entries then
      var e := s.entries[p];
      Put(s, p, e.(refCount := e.refCount + 1)).(handles := s.handles + [Handle(p, e.serial, false)])
    else
      var n := s.nextSerial;
      var t := s.(handles := s.handles + [Handle(p, n, false)], order := s.order + [p], nextSerial := n + 1);
      RequestOpen(Put(t, p, NewEntry(n, stored)), fate, p)
  }

  // ----- editing

  function Unsent(e: Entry): Entry {
    e.(synced := false, status := Offline)
  }

  function LocalEdit(s: State, fate: Fate, p: Page, edit: Edit): State
    requires p in s.entries
  {
    var e := s.entries[p].(doc := s.entries[p].doc + {edit});
    if e.handle.None? then Put(s, p, Unsent(e))
    else
      var t := Logged(s, fate, UpdateFrame(e.handle.value, {edit}));
      Put(t, p, if Sends(s, fate) then e else Unsent(e))
  }

  // ----- releasing

  function WithoutPage(order: seq<Page>, p: Page): seq<Page> {
    if order == [] then []
    else if order[0] == p then order[1..]
    else [order[0]] + WithoutPage(order[1..], p)
  }

  function Discard(s: State, fate: Fate, p: Page): State
    requires p in s.entries
  {
    var e := s.entries[p];
    var t :=
      if e.handle.Some? then Logged(s, fate, CloseFrame(e.handle.value)).(byHandle := s.byHandle - {e.handle.value})
      else s;
    var u := if e.requestId.Some? then t.(byRequest := t.byRequest - {e.requestId.value}) else t;
    u.(entries := u.entries - {p}, order := WithoutPage(u.order, p))
  }

  function ReleaseEntry(s: State, fate: Fate, p: Page): State
    requires p in s.entries
  {
    var e := s.entries[p].(refCount := s.entries[p].refCount - 1);
    var t := Put(s, p, e);
    if e.refCount > 0 || !e.synced then t else Discard(t, fate, p)
  }

  /** The handle's own entry is still the one held for its page. */
  predicate OnHeldEntry(s: State, h: Handle) {
    h.page in s.entries && s.entries[h.page].serial == h.serial
  }

  /** Releasing a handle twice does nothing the second time. */
  function Release(s: State, fate: Fate, h: nat): State {
    if h >= |s.handles| || s.handles[h].released || !OnHeldEntry(s, s.handles[h]) then s
    else ReleaseEntry(s.(handles := s.handles[h := s.handles[h].(released := true)]), fate, s.handles[h].page)
  }

  // ----- frames from the server

  function OnOpenAck(s: State, fate: Fate, id: nat, handle: nat, role: Role): State {
    if id !in s.byRequest || s.byRequest[id] !in s.entries then s
    else
      var p := s.byRequest[id];
      var t := s.(byRequest := s.byRequest - {id}, byHandle := s.byHandle[handle := p]);
      var e := s.entries[p].(handle := Some(handle), role := Some(role), status := Syncing);
      Logged(Noted(Put(t, p, e), Issued(id, handle)), fate, Step1Frame(handle))
  }

  /** Anything but a step 2 only completes a handshake that had completed before. */
  function Settled(e: Entry): Entry {
    if e.status.Syncing? && e.synced then e.(status := Synced) else e
  }

  /** The server's state vector: answer with what it lacks. */
  function OnStep1(s: State, fate: Fate, handle: nat, known: set<Edit>): State {
    if handle !in s.byHandle || s.byHandle[handle] !in s.entries then s
    else
      var p := s.byHandle[handle];
      var t := Noted(s, Named(handle, known));
      Put(Logged(t, fate, ReplyFrame(handle, s.entries[p].doc - known)), p, Settled(s.entries[p]))
  }

  function Received(e: Entry, edits: set<Edit>): Entry {
    e.(doc := e.doc + edits)
  }

  /** The server's answer to our state vector. */
  function OnStep2(s: State, handle: nat, edits: set<Edit>): State {
    if handle !in s.byHandle || s.byHandle[handle] !in s.entries then s
    else
      var p := s.byHandle[handle];
      Put(Noted(s, Named(handle, edits)), p, Received(s.entries[p], edits).(synced := true, status := Synced))
  }

  function OnUpdate(s: State, handle: nat, edits: set<Edit>): State {
    if handle !in s.byHandle || s.byHandle[handle] !in s.entries then s
    else
      var p := s.byHandle[handle];
      Put(Noted(s, Named(handle, edits)), p, Settled(Received(s.entries[p], edits)))
  }

  function OnClosed(s: State, handle: nat, denied: bool): State {
    if handle !in s.byHandle || s.byHandle[handle] !in s.entries then s
    else
      var p := s.byHandle[handle];
      Put(s, p, s.entries[p].(handle := None, role := None, status := if denied then Denied else Offline))
        .(byHandle := s.byHandle - {handle})
  }

  function OnRoleChanged(s: State, handle: nat, role: Role): State {
    if handle !in s.byHandle || s.byHandle[handle] !in s.entries then s
    else Put(s, s.byHandle[handle], s.entries[s.byHandle[handle]].(role := Some(role)))
  }

  function OnError(s: State, id: nat, denied: bool): State {
    if id == 0 || id !in s.byRequest || s.byRequest[id] !in s.entries then s
    else
      var p := s.byRequest[id];
      Put(s, p, s.entries[p].(requestId := None, status := if denied then Denied else Offline))
        .(byRequest := s.byRequest - {id})
  }

  // ----- the connection

  function Dropped(e: Entry): Entry {
    e.(synced := false, status := Offline)
  }

  /** The connection leaves the ready state. */
  function Disconnect(s: State): State {
    if !s.ready then s
    else Noted(s, Lost).(ready := false, entries := map p | p in s.entries :: Dropped(s.entries[p]))
  }

  function Retry(s: State, fate: Fate, p: Page): State {
    if p !in s.entries || s.entries[p].handle.Some? || s.entries[p].requestId.Some? then s
    else RequestOpen(Put(s, p, s.entries[p].(status := Opening)), fate, p)
  }

  /** `handleAuthenticated`, over the pages still to be looked at. */
  function RetryAll(s: State, fate: Fate, pages: seq<Page>): State
    decreases |pages|
  {
    if pages == [] then s else RetryAll(Retry(s, fate, pages[0]), fate, pages[1..])
  }

  function Reopen(s: State, fate: Fate, p: Page): State {
    if p !in s.entries then s
    else RequestOpen(Put(s, p, s.entries[p].(handle := None, requestId := None, status := Opening)), fate, p)
  }

  /** The loop of `handleReconnect`, over the pages still to be reopened. */
  function ReopenAll(s: State, fate: Fate, pages: seq<Page>): State
    decreases |pages|
  {
    if pages == [] then s else ReopenAll(Reopen(s, fate, pages[0]), fate, pages[1..])
  }

  function Reconnect(s: State, fate: Fate): State {
    ReopenAll(s.(byHandle := map[], byRequest := map[]), fate, s.order)
  }

  /** The connection authenticates, for the first time or again. Nothing called here reads `connectedBefore`. */
  function AuthAck(s: State, fate: Fate): State {
    var t := s.(ready := true, connectedBefore := true);
    var u := RetryAll(t, fate, t.order);
    if s.connectedBefore then Reconnect(u, fate) else u
  }

  function Revoked(e: Entry, denied: bool): Entry {
    e.(handle := None, requestId := None, role := None, status := if denied then Denied else Offline)
  }

  /** `handleFatal`: every document is inaccessible. */
  function RevokeAll(s: State, denied: bool): State {
    s.(byHandle := map[], byRequest := map[], entries := map p | p in s.entries :: Revoked(s.entries[p], denied))
  }

  /** The connection fails for good: it leaves the ready state and everything is revoked. */
  function Fatal(s: State, denied: bool): State {
    RevokeAll(Disconnect(s), denied)
  }

  // ----- runs

  datatype Event =
    | EvOpen(page: Page, stored: set<Edit>)
    | EvRelease(h: nat)
    | EvEdit(page: Page, edit: Edit)
    | EvOpenAck(id: nat, handle: nat, role: Role)
    | EvStep1(handle: nat, known: set<Edit>)
    | EvStep2(handle: nat, edits: set<Edit>)
    | EvUpdate(handle: nat, edits: set<Edit>)
    | EvClosed(handle: nat, denied: bool)
    | EvRoleChanged(handle: nat, role: Role)
    | EvError(id: nat, denied: bool)
    | EvDisconnect
    | EvAuthAck
    | EvFatal(denied: bool)

  /** What the store relies on in every run: the server does not reissue a live handle. */
  predicate Expected(s: State, ev: Event) {
    ev.EvOpenAck? ==> ev.handle !in s.byHandle
  }

  function Step(s: State, fate: Fate, ev: Event): State {
    match ev
    case EvOpen(page, stored) => Open(s, fate, page, stored)
    case EvRelease(h) => Release(s, fate, h)
    case EvEdit(page, edit) => if page in s.entries then LocalEdit(s, fate, page, edit) else s
    case EvOpenAck(id, handle, role) => OnOpenAck(s, fate, id, handle, role)
    case EvStep1(handle, known) => OnStep1(s, fate, handle, known)
    case EvStep2(handle, edits) => OnStep2(s, handle, edits)
    case EvUpdate(handle, edits) => OnUpdate(s, handle, edits)
    case EvClosed(handle, denied) => OnClosed(s, handle, denied)
    case EvRoleChanged(handle, role) => OnRoleChanged(s, handle, role)
    case EvError(id, denied) => OnError(s, id, denied)
    case EvDisconnect => Disconnect(s)
    case EvAuthAck => AuthAck(s, fate)
    case EvFatal(denied) => Fatal(s, denied)
  }

  function Run(s: State, fate: Fate, evs: seq<Event>): State
    decreases |evs|
  {
    if evs == [] then s else Run(Step(s, fate, evs[0]), fate, evs[1..])
  }

  /** Every event of the run arrives when the store may expect it. */
  predicate ExpectedRun(s: State, fate: Fate, evs: seq<Event>)
    decreases |evs|
  {
    evs == [] || (Expected(s, evs[0]) && ExpectedRun(Step(s, fate, evs[0]), fate, evs[1..]))
  }
}

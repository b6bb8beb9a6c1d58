/**
  The document store in the source's own form (packages/client/src/store.ts): an object with three maps
  and a counter that its methods update, and a connection object it sends through.

  An entry is a record held under its page, with a serial for its identity. Every method is proved to take
  exactly the step of `StoreSpec` that carries its name, so what is proved there about every run holds of
  this object.
 */
module Store {
  import opened Common
  import S = StoreSpec
  import T = StoreTheorems

  class Connection {
    const fate: S.Fate
    var ready: bool
    var hasConnectedBefore: bool
    var log: seq<S.Record>

    constructor (fate: S.Fate)
      ensures !ready && !hasConnectedBefore && log == [] && this.fate == fate
    {
      this.fate, ready, hasConnectedBefore, log := fate, false, false, [];
    }

    /** Send one frame: refused unless the connection is ready, and it may fail even then. */
    method Send(f: S.Frame) returns (sent: bool)
      modifies this`log
      ensures sent == (ready && fate(|old(log)|))
      ensures log == old(log) + [S.Attempt(f, sent)]
    {
      if !ready {
        sent := false;
      } else {
        sent := fate(|log|);
      }
      log := log + [S.Attempt(f, sent)];
    }

    /** History only: what the connection delivered, or that it was lost. */
    method Note(r: S.Record)
      modifies this`log
      ensures log == old(log) + [r]
    {
      log := log + [r];
    }
  }

  /** A message of the sync protocol. */
  datatype SyncMessage = Step1(known: set<S.Edit>) | Step2(edits: set<S.Edit>) | Update(edits: set<S.Edit>)

  lemma {:induction false} PutThenDrop<V>(m: map<nat, V>, k: nat, v: V)
    ensures m[k := v] - {k} == m - {k}
  {
  }

  /** Walking the iteration order: the next page is held and was not visited before. */
  lemma {:induction false} NextInOrder(pages: set<S.Page>, order: seq<S.Page>, i: nat)
    requires T.OrderOk(pages, order) && i < |order|
    ensures order[i] in pages && order[i] !in order[..i]
    ensures forall p :: p in order[..i + 1] <==> p in order[..i] || p == order[i]
  {
    assert order[i] in order;
  }

  lemma {:induction false} AllInOrder(pages: set<S.Page>, order: seq<S.Page>)
    requires T.OrderOk(pages, order)
    ensures forall p <- pages :: p in order[..|order|]
  {
    assert order[..|order|] == order;
  }

  lemma {:induction false} LiveHandleIsHeld(s: S.State, h: nat)
    requires T.Inv(s) && h < |s.handles| && !s.handles[h].released
    ensures S.OnHeldEntry(s, s.handles[h])
  {
    assert s.handles[h] in s.handles;
  }

  class DocumentStore {
    const connection: Connection
    var entries: map<S.Page, S.Entry>
    var order: seq<S.Page>
    var byHandle: map<nat, S.Page>
    var byRequest: map<nat, S.Page>
    var nextRequestId: nat
    var handles: seq<S.Handle>
    var nextSerial: nat

    constructor (connection: Connection)
      requires !connection.ready && !connection.hasConnectedBefore && connection.log == []
      ensures this.connection == connection && View() == S.INITIAL
    {
      this.connection := connection;
      entries, order, byHandle, byRequest, nextRequestId, handles, nextSerial := map[], [], map[], map[], 1, [], 0;
    }

    ghost function View(): S.State
      reads this, connection
    {
      S.State(entries, order, byHandle, byRequest, nextRequestId,
              connection.ready, connection.hasConnectedBefore, connection.log, handles, nextSerial)
    }

    /** The class invariant: what `StoreTheorems` proves of every state of every expected run. */
    ghost predicate Valid()
      reads this, connection
    {
      T.Inv(View())
    }

    method RequestOpen(page: S.Page)
      requires page in entries
      modifies this`nextRequestId, this`byRequest, this`entries, connection`log
      ensures View() == S.RequestOpen(old(View()), connection.fate, page)
    {
      var requestId := nextRequestId;
      nextRequestId := nextRequestId + 1;
      var entry := entries[page].(requestId := Some(requestId));
      byRequest := byRequest[requestId := page];
      var sent := connection.Send(S.OpenFrame(requestId, page));
      if !sent {
        entry := entry.(requestId := None);
        PutThenDrop(old(byRequest), requestId, page);
        byRequest := byRequest - {requestId};
        entry := entry.(status := S.Opening);
      }
      entries := entries[page := entry];
    }

    /** Open a page: share the entry that is held, or make one and ask for it. */
    method Open(page: S.Page, stored: set<S.Edit>) returns (handle: nat)
      requires Valid()
      modifies this, connection`log
      ensures View() == S.Open(old(View()), connection.fate, page, stored)
      ensures handle == |old(handles)| && handle < |handles| && handles[handle].page == page
          && !handles[handle].released
      ensures Valid()
    {
      hide T.Inv, S.RequestOpen, S.NewEntry;
      T.StepKeeps(View(), connection.fate, S.EvOpen(page, stored));
      handle := |handles|;
      if page in entries {
        entries := entries[page := entries[page].(refCount := entries[page].refCount + 1)];
        handles := handles + [S.Handle(page, entries[page].serial, false)];
        return;
      }
      entries := entries[page := S.NewEntry(nextSerial, stored)];
      order := order + [page];
      handles := handles + [S.Handle(page, nextSerial, false)];
      nextSerial := nextSerial + 1;
      RequestOpen(page);
    }

    /** The observer of a held document: an update that did not come from the server. */
    method OnLocalUpdate(page: S.Page, edit: S.Edit)
      requires Valid() && page in entries
      modifies this`entries, connection`log
      ensures View() == S.LocalEdit(old(View()), connection.fate, page, edit)
      ensures Valid()
    {
      hide T.Inv;
      T.LocalEditKeeps(View(), connection.fate, page, edit);
      var entry := entries[page].(doc := entries[page].doc + {edit});
      if entry.handle.None? {
        entries := entries[page := entry.(synced := false, status := S.Offline)];
        return;
      }
      var sent := connection.Send(S.UpdateFrame(entry.handle.value, {edit}));
      if !sent {
        entry := entry.(synced := false, status := S.Offline);
      }
      entries := entries[page := entry];
    }

    /** The tail of `releaseEntry`: nobody holds the document and the server has it. */
    method DiscardEntry(page: S.Page)
      requires page in entries
      modifies this, connection`log
      ensures View() == S.Discard(old(View()), connection.fate, page)
    {
      hide S.WithoutPage;
      var entry := entries[page];
      if entry.handle.Some? {
        var _ := connection.Send(S.CloseFrame(entry.handle.value));
        byHandle := byHandle - {entry.handle.value};
      }
      if entry.requestId.Some? {
        byRequest := byRequest - {entry.requestId.value};
      }
      entries := entries - {page};
      order := S.WithoutPage(order, page);
    }

    method ReleaseEntry(page: S.Page)
      requires page in entries
      modifies this, connection`log
      ensures View() == S.ReleaseEntry(old(View()), connection.fate, page)
    {
      hide S.Discard;
      entries := entries[page := entries[page].(refCount := entries[page].refCount - 1)];
      var entry := entries[page];
      if entry.refCount > 0 || !entry.synced {
        return;
      }
      DiscardEntry(page);
    }

    /** `release` of a counted handle; the page of an unreleased handle is held in every run. */
    method Release(handle: nat)
      requires Valid()
      modifies this, connection`log
      ensures View() == S.Release(old(View()), connection.fate, handle)
      ensures Valid()
    {
      hide T.Inv;
      T.ReleaseKeeps(View(), connection.fate, handle);
      if handle >= |handles| || handles[handle].released {
        return;
      }
      var page := handles[handle].page;
      LiveHandleIsHeld(View(), handle);
      handles := handles[handle := handles[handle].(released := true)];
      ReleaseEntry(page);
    }

    // ----- frames

    method OnOpenAck(requestId: nat, handle: nat, role: S.Role)
      requires Valid()
      modifies this, connection`log
      ensures View() == S.OnOpenAck(old(View()), connection.fate, requestId, handle, role)
      ensures handle !in old(byHandle) ==> Valid()
    {
      hide T.Inv;
      if handle !in byHandle { T.OnOpenAckKeeps(View(), connection.fate, requestId, handle, role); }
      if requestId !in byRequest {
        return;
      }
      T.RequestKnown(View(), requestId);
      var page := byRequest[requestId];
      byRequest := byRequest - {requestId};
      entries := entries[page := entries[page].(handle := Some(handle), role := Some(role), status := S.Syncing)];
      byHandle := byHandle[handle := page];
      connection.Note(S.Issued(requestId, handle));
      var _ := connection.Send(S.Step1Frame(handle));
    }

    /** One sync message: apply it, answer a state vector, and note when the handshake is complete. */
    method OnSync(handle: nat, message: SyncMessage)
      requires Valid()
      modifies this`entries, connection`log
      ensures View() == match message
        case Step1(known) => S.OnStep1(old(View()), connection.fate, handle, known)
        case Step2(edits) => S.OnStep2(old(View()), handle, edits)
        case Update(edits) => S.OnUpdate(old(View()), handle, edits)
      ensures Valid()
    {
      hide T.Inv;
      match message {
        case Step1(known) => T.OnStep1Keeps(View(), connection.fate, handle, known);
        case Step2(edits) => T.OnStep2Keeps(View(), handle, edits);
        case Update(edits) => T.OnUpdateKeeps(View(), handle, edits);
      }
      if handle !in byHandle {
        return;
      }
      T.HandleKnown(View(), handle);
      var page := byHandle[handle];
      var entry := entries[page];
      match message {
        case Step1(known) =>
          connection.Note(S.Named(handle, known));
          var _ := connection.Send(S.ReplyFrame(handle, entry.doc - known));
        case Step2(edits) =>
          connection.Note(S.Named(handle, edits));
          entry := entry.(doc := entry.doc + edits);
        case Update(edits) =>
          connection.Note(S.Named(handle, edits));
          entry := entry.(doc := entry.doc + edits);
      }
      if message.Step2? {
        entry := entry.(synced := true, status := S.Synced);
      } else if entry.status == S.Syncing && entry.synced {
        entry := entry.(status := S.Synced);
      }
      entries := entries[page := entry];
    }

    method OnClosed(handle: nat, denied: bool)
      requires Valid()
      modifies this`entries, this`byHandle
      ensures View() == S.OnClosed(old(View()), handle, denied)
      ensures Valid()
    {
      hide T.Inv;
      T.OnClosedKeeps(View(), handle, denied);
      if handle !in byHandle {
        return;
      }
      T.HandleKnown(View(), handle);
      var page := byHandle[handle];
      byHandle := byHandle - {handle};
      var status := if denied then S.Denied else S.Offline;
      entries := entries[page := entries[page].(handle := None, role := None, status := status)];
    }

    method OnRoleChanged(handle: nat, role: S.Role)
      requires Valid()
      modifies this`entries
      ensures View() == S.OnRoleChanged(old(View()), handle, role)
      ensures Valid()
    {
      hide T.Inv;
      T.OnRoleChangedKeeps(View(), handle, role);
      if handle !in byHandle {
        return;
      }
      T.HandleKnown(View(), handle);
      var page := byHandle[handle];
      entries := entries[page := entries[page].(role := Some(role))];
    }

    method OnError(requestId: nat, denied: bool)
      requires Valid()
      modifies this`entries, this`byRequest
      ensures View() == S.OnError(old(View()), requestId, denied)
      ensures Valid()
    {
      hide T.Inv;
      T.OnErrorKeeps(View(), requestId, denied);
      if requestId == 0 || requestId !in byRequest {
        return;
      }
      T.RequestKnown(View(), requestId);
      var page := byRequest[requestId];
      byRequest := byRequest - {requestId};
      entries := entries[page := entries[page].(requestId := None, status := if denied then S.Denied else S.Offline)];
    }

    // ----- the connection's events

    /** The connection leaves the ready state: every entry is stale. */
    method HandleDisconnect()
      requires Valid() && connection.ready
      modifies this`entries, connection`ready, connection`log
      ensures View() == S.Disconnect(old(View()))
      ensures Valid()
    {
      hide T.OrderOk, T.HandlesOk, T.RequestsOk, T.RefsOk, T.SyncOk, T.EarlyOk, T.LogOk;
      T.DisconnectKeeps(View());
      connection.ready := false;
      connection.Note(S.Lost);
      ghost var was := entries;
      for i := 0 to |order|
        modifies this`entries
        invariant entries.Keys == was.Keys
        invariant forall p <- entries :: entries[p] == if p in order[..i] then S.Dropped(was[p]) else was[p]
      {
        var page := order[i];
        NextInOrder(was.Keys, order, i);
        entries := entries[page := entries[page].(synced := false, status := S.Offline)];
      }
      AllInOrder(was.Keys, order);
      assert entries == S.Disconnect(old(View())).entries;
    }

    method HandleAuthenticated()
      modifies this, connection`log
      ensures View() == S.RetryAll(old(View()), connection.fate, old(order))
      ensures order == old(order)
    {
      for i := 0 to |order|
        invariant order == old(order)
        invariant S.RetryAll(View(), connection.fate, order[i..])
            == S.RetryAll(old(View()), connection.fate, old(order))
      {
        var page := order[i];
        assert order[i..][0] == page && order[i..][1..] == order[i + 1..];
        if page !in entries || entries[page].handle.Some? || entries[page].requestId.Some? {
          continue;
        }
        entries := entries[page := entries[page].(status := S.Opening)];
        RequestOpen(page);
      }
    }

    method HandleReconnect()
      modifies this, connection`log
      ensures View() == S.Reconnect(old(View()), connection.fate)
    {
      byHandle, byRequest := map[], map[];
      ghost var cleared := View();
      for i := 0 to |order|
        invariant order == cleared.order
        invariant S.ReopenAll(View(), connection.fate, order[i..])
            == S.ReopenAll(cleared, connection.fate, cleared.order)
      {
        var page := order[i];
        assert order[i..][0] == page && order[i..][1..] == order[i + 1..];
        if page !in entries {
          continue;
        }
        entries := entries[page := entries[page].(handle := None, requestId := None, status := S.Opening)];
        RequestOpen(page);
      }
    }

    /** The AuthAck branch of the connection with the client's wiring: authenticated first, then reconnect. */
    method HandleAuthAck()
      requires Valid()
      modifies this, connection
      ensures View() == S.AuthAck(old(View()), connection.fate)
      ensures Valid()
    {
      hide T.Inv;
      T.AuthAckKeeps(View(), connection.fate);
      connection.ready := true;
      var again := connection.hasConnectedBefore;
      connection.hasConnectedBefore := true;
      HandleAuthenticated();
      if again {
        HandleReconnect();
      }
    }

    method HandleFatal(denied: bool)
      requires Valid()
      modifies this`entries, this`byHandle, this`byRequest
      ensures View() == S.RevokeAll(old(View()), denied)
    {
      hide T.OrderOk, T.HandlesOk, T.RequestsOk, T.RefsOk, T.SyncOk, T.EarlyOk, T.LogOk;
      byHandle, byRequest := map[], map[];
      ghost var was := entries;
      for i := 0 to |order|
        modifies this`entries
        invariant entries.Keys == was.Keys
        invariant forall p <- entries :: entries[p] == if p in order[..i] then S.Revoked(was[p], denied) else was[p]
      {
        var page := order[i];
        NextInOrder(was.Keys, order, i);
        entries := entries[page := entries[page].(
            handle := None, requestId := None, role := None, status := if denied then S.Denied else S.Offline)];
      }
      AllInOrder(was.Keys, order);
      assert entries == S.RevokeAll(old(View()), denied).entries;
    }

    /** The connection has failed for good: it leaves the ready state, then every document is revoked. */
    method ConnectionFailed(denied: bool)
      requires Valid()
      modifies this, connection`ready, connection`log
      ensures View() == S.Fatal(old(View()), denied)
      ensures Valid()
    {
      hide T.Inv;
      T.FatalKeeps(View(), denied);
      hide S.RevokeAll, T.OrderOk;
      if connection.ready {
        HandleDisconnect();
      }
      HandleFatal(denied);
    }
  }
}

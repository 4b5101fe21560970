/**
 The handlers of QueryEditor.tsx that move sessions, as methods over the fields they update:
 tabsRef, transactionSessionsRef and sessionPermissionsRef. Each answer of the engine is an argument.
 A handler runs as one step; the ghost field records what the engine has open.
 */
module TabEditor {
  import opened Text
  import opened TabSessions

  class Editor {
    const readOnlyProfile: bool
    var tabs: seq<Tab>
    var sessions: map<string, string>
    var permissions: map<string, bool>
    ghost var server: map<string, Session>

    ghost function View(): State
      reads this
    {
      State(tabs, sessions, permissions, server)
    }

    constructor (readOnlyProfile: bool, firstTab: string)
      ensures View() == State([NewTab(firstTab)], map[], map[], map[]) && Inv(View())
      ensures this.readOnlyProfile == readOnlyProfile
    {
      this.readOnlyProfile := readOnlyProfile;
      tabs, sessions, permissions, server := [NewTab(firstTab)], map[], map[], map[];
      new;
      StartIsInv(firstTab);
    }

    /** updateTabTransaction. */
    method UpdateTabTransaction(id: string, tx: TxState, sessionId: Option<string>)
      modifies this`tabs
      ensures tabs == Noted(old(tabs), id, tx, sessionId)
    {
      var tab := FindTab(tabs, id);
      if tab.Some? { tabs := PutTab(tabs, tab.value.(tx := tx, sessionId := sessionId)); }
    }

    method CloseTransactionSession(id: string, closeOk: bool) returns (ok: bool)
      modifies this
      ensures (View(), ok) == Close(old(View()), id, closeOk)
    {
      var tab := FindTab(tabs, id);
      var sessionId := if id in sessions then Some(sessions[id]) else if tab.Some? then tab.value.sessionId else None;
      if sessionId.None? { return true; }
      if !closeOk { return false; }
      server := if sessionId.value in server then server[sessionId.value := server[sessionId.value].(open := false)] else server;
      sessions := sessions - {id};
      permissions := permissions - {id};
      UpdateTabTransaction(id, Idle, None);
      return true;
    }

    method EnsureTransactionSession(id: string, allowWrite: bool, closeOk: bool, answer: Option<string>) returns (sid: Option<string>)
      modifies this
      ensures (View(), sid) == Ensure(old(View()), id, allowWrite, closeOk, answer)
    {
      var tab := FindTab(tabs, id);
      var existing := if id in sessions then Some(sessions[id]) else if tab.Some? then tab.value.sessionId else None;
      if existing.Some? {
        if id in permissions && permissions[id] == allowWrite { return existing; }
        if tab.Some? && Busy(tab.value) { return None; }
        var closed := CloseTransactionSession(id, closeOk);
        if !closed { return None; }
      }
      sid := OpenSession(id, allowWrite, answer);
    }

    /** The open request at the end of ensureTransactionSession. */
    method OpenSession(id: string, allowWrite: bool, answer: Option<string>) returns (sid: Option<string>)
      modifies this
      ensures (View(), sid) == Reopen(old(View()), id, allowWrite, answer)
    {
      if answer.None? {
        UpdateTabTransaction(id, Idle, None);
        return None;
      }
      sessions := sessions[id := answer.value];
      permissions := permissions[id := allowWrite];
      server := server[answer.value := Session(allowWrite, true)];
      UpdateTabTransaction(id, Idle, answer);
      return answer;
    }

    /** A statement goes out on the session ensured for it; the result is the session it is sent on. */
    method SendStatement(id: string, allowWrite: bool, closeOk: bool, answer: Option<string>) returns (sentOn: Option<string>)
      requires Inv(View()) && HasTab(tabs, id) && (answer.Some? ==> answer.value !in server)
      modifies this
      ensures (View(), sentOn) == Ensure(old(View()), id, allowWrite, closeOk, answer)
      ensures Inv(View()) && Advances(old(server), server)
      ensures sentOn.Some? ==> sentOn.value in server && server[sentOn.value] == Session(allowWrite, true)
    {
      EnsureKeepsInv(View(), id, allowWrite, closeOk, answer);
      EnsureGivesPermission(View(), id, allowWrite, closeOk, answer);
      sentOn := EnsureTransactionSession(id, allowWrite, closeOk, answer);
    }

    method ChangeTabWriteMode(id: string, next: bool, closeOk: bool) returns (ok: bool)
      requires Inv(View())
      modifies this
      ensures View() == ChangeWriteMode(old(View()), readOnlyProfile, id, next, closeOk)
      ensures Inv(View()) && Advances(old(server), server)
    {
      ChangeWriteModeKeepsInv(View(), readOnlyProfile, id, next, closeOk);
      var target := FindTab(tabs, id);
      if target.None? { return false; }
      var current := if readOnlyProfile then false else target.value.writeMode;
      if next == current { return true; }
      if readOnlyProfile && next { return false; }
      if Busy(target.value) { return false; }
      if target.value.sessionId.Some? {
        var closed := CloseTransactionSession(id, closeOk);
        if !closed { return false; }
      }
      var tab := FindTab(tabs, id);
      if tab.Some? { tabs := PutTab(tabs, tab.value.(writeMode := next)); }
      return true;
    }

    method SetTransactionMode(id: string, mode: Mode, confirmed: bool, rollbackOk: bool, configureOk: bool)
      requires Inv(View())
      modifies this
      ensures View() == SetMode(old(View()), id, mode, confirmed, rollbackOk, configureOk)
      ensures Inv(View()) && server == old(server)
    {
      SetModeKeepsInv(View(), id, mode, confirmed, rollbackOk, configureOk);
      var target := FindTab(tabs, id);
      if target.None? || target.value.mode == mode { return; }
      if Busy(target.value) {
        if !confirmed { return; }
        if !rollbackOk { return; }
      }
      if target.value.sessionId.Some? {
        if !configureOk { return; }
      }
      tabs := PutTab(tabs, target.value.(mode := mode, tx := Idle));
    }

    method FinishTransaction(id: string, ok: bool)
      requires Inv(View())
      modifies this
      ensures View() == Finish(old(View()), id, ok)
      ensures Inv(View()) && server == old(server)
    {
      ghost var before := View();
      EndTransaction(id, ok);
      FinishKeepsInv(before, id, ok);
    }

    /** finishTransaction after its confirmation; ok tells whether commit or rollback succeeded. */
    method EndTransaction(id: string, ok: bool)
      modifies this
      ensures View() == Finish(old(View()), id, ok)
    {
      var target := FindTab(tabs, id);
      if target.None? { return; }
      var sessionId := if id in sessions then Some(sessions[id]) else target.value.sessionId;
      if sessionId.None? { return; }
      tabs := PutTab(tabs, target.value.(tx := if ok then Idle else FailedTx));
    }

    method CloseQueryTabs(ids: seq<string>, confirmed: bool, closeOks: map<string, bool>, freshId: string)
      requires Inv(View()) && Fresh(View(), CloseTabsOp(ids, confirmed, closeOks, freshId))
      modifies this
      ensures View() == CloseTabs(old(View()), ids, confirmed, closeOks, freshId)
      ensures Inv(View()) && Advances(old(server), server)
    {
      CloseEachKeepsInv(View(), ids, closeOks, freshId);
      if |ids| == 0 || AnyTab(tabs, ids, (t: Tab) => t.loading) { return; }
      if AnyTab(tabs, ids, Busy) && !confirmed { return; }
      CloseOneByOne(ids, closeOks, freshId);
    }

    /** The loop of closeTabs. */
    method CloseOneByOne(ids: seq<string>, closeOks: map<string, bool>, freshId: string)
      modifies this
      ensures View() == CloseEach(old(View()), ids, closeOks, freshId)
    {
      var i := 0;
      while i < |ids|
        invariant 0 <= i <= |ids|
        invariant CloseEach(View(), ids[i..], closeOks, freshId) == CloseEach(old(View()), ids, closeOks, freshId)
      {
        assert ids[i..][1..] == ids[i + 1..];
        var target := FindTab(tabs, ids[i]);
        if target.Some? {
          if target.value.loading { return; }
          var closed := CloseTransactionSession(ids[i], CloseOk(closeOks, ids[i]));
          if !closed { return; }
          var remaining := WithoutTab(tabs, ids[i]);
          if remaining == [] { remaining := [NewTab(freshId)]; }
          tabs := remaining;
        }
        i := i + 1;
      }
    }
  }
}

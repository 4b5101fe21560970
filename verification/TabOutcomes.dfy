/** What the handlers of the query tabs achieve (apps/renderer/src/components/QueryEditor.tsx), and for whom. */
module TabOutcomes {
  import opened Text
  import opened TabSessions

  function TabOf(s: State, id: string): Option<Tab> {
    FindTab(s.tabs, id)
  }

  /** No other tab differs. */
  ghost predicate OthersSame(s: State, s': State, id: string) {
    forall other: string | other != id :: TabOf(s', other) == TabOf(s, other)
  }

  lemma {:induction false} PutFound(tabs: seq<Tab>, tab: Tab, id: string)
    ensures FindTab(PutTab(tabs, tab), id) ==
      if id == tab.id && FindTab(tabs, id).Some? then Some(tab) else FindTab(tabs, id)
  {
    if tabs != [] {
      var r := PutTab(tabs, tab);
      assert r[1..] == PutTab(tabs[1..], tab);
      PutFound(tabs[1..], tab, id);
    }
  }

  lemma PutOthers(s: State, tab: Tab)
    requires TabOf(s, tab.id).Some?
    ensures var s' := s.(tabs := PutTab(s.tabs, tab)); TabOf(s', tab.id) == Some(tab) && OthersSame(s, s', tab.id)
  {
    PutFound(s.tabs, tab, tab.id);
    forall other: string | other != tab.id ensures FindTab(PutTab(s.tabs, tab), other) == FindTab(s.tabs, other) {
      PutFound(s.tabs, tab, other);
    }
  }

  /** What closing a session leaves of its tab: everything but the session and its transaction. */
  lemma CloseLeaves(s: State, id: string, closeOk: bool)
    requires Inv(s) && TabOf(s, id).Some?
    ensures var (s', closed) := Close(s, id, closeOk);
      && OthersSame(s, s', id)
      && (closed <==> TabOf(s, id).value.sessionId.None? || closeOk)
      && TabOf(s', id) == Some(if closed && TabOf(s, id).value.sessionId.Some?
                               then TabOf(s, id).value.(sessionId := None, tx := Idle) else TabOf(s, id).value)
  {
    NoteIsRecord(s, id);
    CloseCases(s, id, closeOk);
    PutOthers(s, TabOf(s, id).value.(sessionId := None, tx := Idle));
  }

  /**
   On a profile that may write, a tab has the write mode asked for afterwards exactly if it had it, or no transaction
   is open and its session, if any, could be closed; a tab that changes has no session left. On a read-only profile
   nothing happens.
   */
  lemma WriteModeIsSetIff(s: State, readOnlyProfile: bool, id: string, next: bool, closeOk: bool)
    requires Inv(s) && TabOf(s, id).Some?
    ensures var (tab, s') := (TabOf(s, id).value, ChangeWriteMode(s, readOnlyProfile, id, next, closeOk));
      && OthersSame(s, s', id) && TabOf(s', id).Some?
      && (readOnlyProfile ==> s' == s)
      && (!readOnlyProfile ==>
          (TabOf(s', id).value.writeMode == next <==>
           tab.writeMode == next || (!Busy(tab) && (tab.sessionId.None? || closeOk))))
      && (TabOf(s', id).value.writeMode != tab.writeMode ==> TabOf(s', id).value.sessionId == None)
  {
    CloseLeaves(s, id, closeOk);
    var s1 := if TabOf(s, id).value.sessionId.Some? then Close(s, id, closeOk).0 else s;
    PutOthers(s1, TabOf(s1, id).value.(writeMode := next));
  }

  /**
   A tab has the transaction mode asked for afterwards exactly if it had it, or an open transaction could be rolled
   back with the user's consent and its session could be configured; after a change no transaction is open.
   */
  lemma ModeIsSetIff(s: State, id: string, mode: Mode, confirmed: bool, rollbackOk: bool, configureOk: bool)
    requires TabOf(s, id).Some?
    ensures var (tab, s') := (TabOf(s, id).value, SetMode(s, id, mode, confirmed, rollbackOk, configureOk));
      && OthersSame(s, s', id) && TabOf(s', id).Some?
      && var tab' := TabOf(s', id).value;
         && (tab'.mode == mode <==>
             tab.mode == mode || ((Busy(tab) ==> confirmed && rollbackOk) && (tab.sessionId.Some? ==> configureOk)))
         && (tab'.mode != tab.mode ==> tab'.tx == Idle) && tab'.sessionId == tab.sessionId && tab'.writeMode == tab.writeMode
  {
    PutOthers(s, TabOf(s, id).value.(mode := mode, tx := Idle));
  }

  /** Commit or rollback: the transaction is over if it succeeded and failed if it did not; without a session nothing happens. */
  lemma TransactionEnds(s: State, id: string, ok: bool)
    requires Inv(s) && TabOf(s, id).Some?
    ensures var (tab, s') := (TabOf(s, id).value, Finish(s, id, ok));
      && OthersSame(s, s', id) && s'.sessions == s.sessions
      && TabOf(s', id) == Some(if tab.sessionId.None? then tab else tab.(tx := if ok then Idle else FailedTx))
  {
    NoteIsRecord(s, id);
    PutOthers(s, TabOf(s, id).value.(tx := if ok then Idle else FailedTx));
  }

  // --------------------------------------------------------------- closing tabs

  /** Closing tabs brings no tab about but the fresh one. */
  lemma {:induction false} CloseAddsOnlyFresh(s: State, ids: seq<string>, closeOks: map<string, bool>, freshId: string)
    requires Inv(s) && freshId !in ids
    requires !HasTab(s.tabs, freshId) || forall k: string :: HasTab(s.tabs, k) ==> k == freshId
    ensures forall k: string :: HasTab(CloseEach(s, ids, closeOks, freshId).tabs, k) ==> HasTab(s.tabs, k) || k == freshId
    ensures s.tabs != [] ==> CloseEach(s, ids, closeOks, freshId).tabs != []
    decreases |ids|
  {
    if ids != [] {
      NoteIsRecord(s, ids[0]);
      if FindTab(s.tabs, ids[0]).None? {
        CloseAddsOnlyFresh(s, ids[1..], closeOks, freshId);
      } else if !FindTab(s.tabs, ids[0]).value.loading {
        CloseKeepsInv(s, ids[0], CloseOk(closeOks, ids[0]));
        var (s1, closed) := Close(s, ids[0], CloseOk(closeOks, ids[0]));
        if closed {
          RemoveKeepsInv(s1, ids[0], freshId);
          WithoutTabKeeps(s1.tabs, ids[0]);
          CloseAddsOnlyFresh(AfterRemoval(s1, ids[0], freshId), ids[1..], closeOks, freshId);
        }
      }
    }
  }

  function AfterRemoval(s: State, id: string, freshId: string): State {
    var rest := WithoutTab(s.tabs, id);
    s.(tabs := if rest == [] then [NewTab(freshId)] else rest)
  }

  /** Closing a session leaves the other tabs as they are. */
  lemma CloseKeepsTabs(s: State, id: string, closeOk: bool)
    requires Inv(s)
    ensures forall t: Tab | t.id != id :: t in Close(s, id, closeOk).0.tabs <==> t in s.tabs
  {
    CloseCases(s, id, closeOk);
    if id in s.sessions && closeOk {
      var tab := FindTab(s.tabs, id).value;
      var tabs := PutTab(s.tabs, tab.(sessionId := None, tx := Idle));
      PutTabKeeps(s.tabs, tab.(sessionId := None, tx := Idle));
      forall t: Tab | t.id != id && t in s.tabs ensures t in tabs {
        var i :| 0 <= i < |s.tabs| && s.tabs[i] == t;
        assert tabs[i] == t;
      }
    }
  }

  /** None of these tabs is running, and the engine closes all their sessions. */
  ghost predicate Closable(s: State, ids: seq<string>, closeOks: map<string, bool>) {
    (forall t | t in s.tabs && t.id in ids :: !t.loading) && forall id | id in ids :: CloseOk(closeOks, id)
  }

  /**
   Closing tabs that can all be closed: they are gone, every other tab is as it was, and the editor is left with at
   least one tab, a fresh one if need be.
   */
  lemma {:induction false} ClosedTabsAreGone(s: State, ids: seq<string>, closeOks: map<string, bool>, freshId: string)
    requires Inv(s) && freshId !in ids && Closable(s, ids, closeOks)
    requires !HasTab(s.tabs, freshId) || forall k: string :: HasTab(s.tabs, k) ==> k == freshId
    ensures var s' := CloseEach(s, ids, closeOks, freshId);
      && (forall k | k in ids :: !HasTab(s'.tabs, k))
      && (forall t | t in s.tabs && t.id !in ids :: t in s'.tabs)
      && (s.tabs != [] ==> s'.tabs != [])
    decreases |ids|
  {
    CloseAddsOnlyFresh(s, ids, closeOks, freshId);
    if ids != [] {
      NoteIsRecord(s, ids[0]);
      if FindTab(s.tabs, ids[0]).None? {
        ClosedTabsAreGone(s, ids[1..], closeOks, freshId);
      } else {
        ClosedFirst(s, ids, closeOks, freshId);
        var s1 := Close(s, ids[0], CloseOk(closeOks, ids[0])).0;
        ClosedTabsAreGone(AfterRemoval(s1, ids[0], freshId), ids[1..], closeOks, freshId);
        CloseAddsOnlyFresh(AfterRemoval(s1, ids[0], freshId), ids[1..], closeOks, freshId);
      }
    }
  }

  /** One tab closed and removed. */
  lemma ClosedFirst(s: State, ids: seq<string>, closeOks: map<string, bool>, freshId: string)
    requires Inv(s) && freshId !in ids && Closable(s, ids, closeOks) && ids != [] && HasTab(s.tabs, ids[0])
    requires !HasTab(s.tabs, freshId) || forall k: string :: HasTab(s.tabs, k) ==> k == freshId
    ensures FindTab(s.tabs, ids[0]).Some? && !FindTab(s.tabs, ids[0]).value.loading
    ensures var (s1, closed) := Close(s, ids[0], CloseOk(closeOks, ids[0]));
      var s2 := AfterRemoval(s1, ids[0], freshId);
      && closed && Inv(s2) && Closable(s2, ids[1..], closeOks) && !HasTab(s2.tabs, ids[0])
      && (!HasTab(s2.tabs, freshId) || forall k: string :: HasTab(s2.tabs, k) ==> k == freshId)
      && (forall t | t in s.tabs && t.id != ids[0] :: t in s2.tabs)
  {
    var id := ids[0];
    NoteIsRecord(s, id);
    CloseCases(s, id, CloseOk(closeOks, id));
    CloseKeepsInv(s, id, CloseOk(closeOks, id));
    CloseKeepsTabs(s, id, CloseOk(closeOks, id));
    var s1 := Close(s, id, CloseOk(closeOks, id)).0;
    RemoveKeepsInv(s1, id, freshId);
    WithoutTabKeeps(s1.tabs, id);
    forall t | t in s.tabs && t.id != id ensures t in AfterRemoval(s1, id, freshId).tabs { assert t in WithoutTab(s1.tabs, id); }
  }

  /** Whether one of these tabs is running, or has a transaction that is open. */
  ghost predicate SomeTab(s: State, ids: seq<string>, running: bool) {
    exists t :: t in s.tabs && t.id in ids && (if running then t.loading else t.tx != Idle)
  }

  /** Tabs are closed unless one of them is running, or one has an open transaction and the user does not agree. */
  lemma TabsAreClosedUnless(s: State, ids: seq<string>, confirmed: bool, closeOks: map<string, bool>, freshId: string)
    ensures CloseTabs(s, ids, confirmed, closeOks, freshId) ==
      if SomeTab(s, ids, true) || (SomeTab(s, ids, false) && !confirmed) then s else CloseEach(s, ids, closeOks, freshId)
  {
    AnyTabIff(s, ids, (t: Tab) => t.loading, true);
    AnyTabIff(s, ids, Busy, false);
  }

  lemma AnyTabIff(s: State, ids: seq<string>, p: Tab -> bool, running: bool)
    requires forall t: Tab :: p(t) <==> if running then t.loading else t.tx != Idle
    ensures AnyTab(s.tabs, ids, p) <==> SomeTab(s, ids, running)
  {
    if t :| t in s.tabs && t.id in ids && (if running then t.loading else t.tx != Idle) {
      var i :| 0 <= i < |s.tabs| && s.tabs[i] == t;
      assert s.tabs[i].id in ids && p(s.tabs[i]);
    }
  }

  /** Closing one tab's session: it goes if the engine closes it and, with a transaction open, the user agrees. */
  lemma SessionIsClosedIff(s: State, id: string, confirmed: bool, closeOk: bool)
    requires Inv(s) && TabOf(s, id).Some?
    ensures var (tab, s') := (TabOf(s, id).value, CloseManaged(s, id, confirmed, closeOk));
      && OthersSame(s, s', id) && TabOf(s', id).Some?
      && (TabOf(s', id).value.sessionId == None <==> tab.sessionId == None || (closeOk && (tab.tx == Idle || confirmed)))
      && (TabOf(s', id).value.sessionId != None ==> s' == s)
  {
    CloseLeaves(s, id, closeOk);
    CloseCases(s, id, closeOk);
    NoteIsRecord(s, id);
  }

  lemma {:induction false} FoundBehind(tabs: seq<Tab>, tab: Tab, id: string)
    ensures FindTab(tabs + [tab], id) ==
      if FindTab(tabs, id).Some? then FindTab(tabs, id) else if tab.id == id then Some(tab) else None
  {
    if tabs == [] {
      assert tabs + [tab] == [tab] && [tab][1..] == [];
    } else {
      assert (tabs + [tab])[1..] == tabs[1..] + [tab];
      FoundBehind(tabs[1..], tab, id);
    }
  }

  /** A new tab commits by itself, has no session and no transaction, may not write, and is not running. */
  lemma NewTabIsPlain(s: State, id: string)
    requires TabOf(s, id).None?
    ensures OthersSame(s, CreateTab(s, id), id) && TabOf(CreateTab(s, id), id) == Some(Tab(id, Auto, Idle, None, false, false))
  {
    FoundBehind(s.tabs, NewTab(id), id);
    forall other: string | other != id ensures TabOf(CreateTab(s, id), other) == TabOf(s, other) { FoundBehind(s.tabs, NewTab(id), other); }
  }
}

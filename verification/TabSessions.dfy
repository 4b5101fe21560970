/**
 Database sessions of the query tabs (apps/renderer/src/components/QueryEditor.tsx). Every tab owns
 at most one session, opened with the read/write permission asked for. The specification is a
 transition function per handler over a state that also shows what the engine has open; the class
 below keeps the fields the component keeps and is proved to take exactly those transitions.
 */
module TabSessions {
  import opened Text

  datatype Mode = Auto | Manual
  datatype TxState = Idle | Active | FailedTx | Opening
  datatype Tab = Tab(id: string, mode: Mode, tx: TxState, sessionId: Option<string>, writeMode: bool, loading: bool)

  /** A session as the engine sees it: the permission it was opened with, and whether it still is open. */
  datatype Session = Session(allowWrite: bool, open: bool)

  datatype State = State(
    tabs: seq<Tab>, sessions: map<string, string>, permissions: map<string, bool>, server: map<string, Session>)

  predicate Busy(t: Tab) {
    t.tx == Opening || t.tx == Active || t.tx == FailedTx
  }

  // ------------------------------------------------------------------- tab lists

  function FindTab(tabs: seq<Tab>, id: string): (r: Option<Tab>)
    ensures r.Some? ==> r.value in tabs && r.value.id == id
    ensures r.None? ==> forall i :: 0 <= i < |tabs| ==> tabs[i].id != id
  {
    if tabs == [] then None else if tabs[0].id == id then Some(tabs[0]) else FindTab(tabs[1..], id)
  }

  function PutTab(tabs: seq<Tab>, tab: Tab): (r: seq<Tab>)
    ensures |r| == |tabs|
    ensures forall i :: 0 <= i < |tabs| ==> r[i] == if tabs[i].id == tab.id then tab else tabs[i]
  {
    seq(|tabs|, i requires 0 <= i < |tabs| => if tabs[i].id == tab.id then tab else tabs[i])
  }

  function WithoutTab(tabs: seq<Tab>, id: string): (r: seq<Tab>)
    ensures forall t :: t in r <==> t in tabs && t.id != id
  {
    if tabs == [] then []
    else (if tabs[0].id == id then [] else [tabs[0]]) + WithoutTab(tabs[1..], id)
  }

  function Lookup<V>(m: map<string, V>, key: string): Option<V> {
    if key in m then Some(m[key]) else None
  }

  function NewTab(id: string): Tab {
    Tab(id, Auto, Idle, None, false, false)
  }

  // ------------------------------------------------------------------- transitions

  function SessionOf(s: State, id: string): Option<string> {
    if id in s.sessions then Some(s.sessions[id])
    else match FindTab(s.tabs, id) case Some(t) => t.sessionId case None => None
  }

  /** updateTabTransaction for the fields that concern the session. */
  function Noted(tabs: seq<Tab>, id: string, tx: TxState, sessionId: Option<string>): seq<Tab> {
    match FindTab(tabs, id)
    case Some(t) => PutTab(tabs, t.(tx := tx, sessionId := sessionId))
    case None => tabs
  }

  predicate BusyAt(tabs: seq<Tab>, id: string) {
    match FindTab(tabs, id)
    case Some(t) => Busy(t)
    case None => false
  }

  /** closeTransactionSession; the second result is false when it throws. */
  function Close(s: State, id: string, closeOk: bool): (State, bool) {
    match SessionOf(s, id)
    case None => (s, true)
    case Some(sid) =>
      if !closeOk then (s, false)
      else
        var server := if sid in s.server then s.server[sid := s.server[sid].(open := false)] else s.server;
        (State(Noted(s.tabs, id, Idle, None), s.sessions - {id}, s.permissions - {id}, server), true)
  }

  /** The open request of ensureTransactionSession and its two endings. */
  function Reopen(s: State, id: string, allowWrite: bool, answer: Option<string>): (State, Option<string>) {
    match answer
    case None => (s.(tabs := Noted(s.tabs, id, Idle, None)), None)
    case Some(sid) =>
      (State(Noted(s.tabs, id, Idle, answer), s.sessions[id := sid], s.permissions[id := allowWrite],
             s.server[sid := Session(allowWrite, true)]), answer)
  }

  /**
   ensureTransactionSession; answer is the non-empty id a successful open answers. The second result
   is None when it throws.
   */
  function Ensure(s: State, id: string, allowWrite: bool, closeOk: bool, answer: Option<string>): (State, Option<string>) {
    var existing := SessionOf(s, id);
    if existing.Some? && Lookup(s.permissions, id) == Some(allowWrite) then (s, existing)
    else if existing.Some? && BusyAt(s.tabs, id) then (s, None)
    else
      var (s1, closed) := Close(s, id, closeOk);
      if !closed then (s, None) else Reopen(s1, id, allowWrite, answer)
  }

  function ChangeWriteMode(s: State, readOnlyProfile: bool, id: string, next: bool, closeOk: bool): State {
    match FindTab(s.tabs, id)
    case None => s
    case Some(tab) =>
      var current := !readOnlyProfile && tab.writeMode;
      if next == current || (readOnlyProfile && next) || Busy(tab) then s
      else
        var (s1, closed) := if tab.sessionId.Some? then Close(s, id, closeOk) else (s, true);
        if !closed then s
        else match FindTab(s1.tabs, id) case Some(t) => s1.(tabs := PutTab(s1.tabs, t.(writeMode := next))) case None => s1
  }

  function SetMode(s: State, id: string, mode: Mode, confirmed: bool, rollbackOk: bool, configureOk: bool): State {
    match FindTab(s.tabs, id)
    case None => s
    case Some(tab) =>
      if tab.mode == mode || (Busy(tab) && !(confirmed && rollbackOk)) || (tab.sessionId.Some? && !configureOk) then s
      else s.(tabs := PutTab(s.tabs, tab.(mode := mode, tx := Idle)))
  }

  function Finish(s: State, id: string, ok: bool): State {
    match FindTab(s.tabs, id)
    case None => s
    case Some(tab) => if SessionOf(s, id).None? then s else s.(tabs := PutTab(s.tabs, tab.(tx := if ok then Idle else FailedTx)))
  }

  function CloseManaged(s: State, id: string, confirmed: bool, closeOk: bool): State {
    match FindTab(s.tabs, id)
    case None => s
    case Some(tab) => if tab.sessionId.None? || (Busy(tab) && !confirmed) then s else Close(s, id, closeOk).0
  }

  /** A statement event reports the transaction state of the tab and whether the tab is still running. */
  function Report(s: State, id: string, tx: TxState, loading: bool): State {
    match FindTab(s.tabs, id)
    case None => s
    case Some(tab) => s.(tabs := PutTab(s.tabs, tab.(tx := tx, loading := loading)))
  }

  function CreateTab(s: State, id: string): State {
    s.(tabs := s.tabs + [NewTab(id)])
  }

  /** Whether the engine closes the tab's session; closing succeeds unless said otherwise. */
  predicate CloseOk(closeOks: map<string, bool>, id: string) {
    id in closeOks ==> closeOks[id]
  }

  /** The loop of closeTabs; freshId names the tab put in place of the last one. It stops at the first failure. */
  function CloseEach(s: State, ids: seq<string>, closeOks: map<string, bool>, freshId: string): State
    decreases |ids|
  {
    if ids == [] then s
    else
      match FindTab(s.tabs, ids[0])
      case None => CloseEach(s, ids[1..], closeOks, freshId)
      case Some(tab) =>
        if tab.loading then s
        else
          var (s1, closed) := Close(s, ids[0], CloseOk(closeOks, ids[0]));
          if !closed then s
          else
            var rest := WithoutTab(s1.tabs, ids[0]);
            CloseEach(s1.(tabs := if rest == [] then [NewTab(freshId)] else rest), ids[1..], closeOks, freshId)
  }

  predicate AnyTab(tabs: seq<Tab>, ids: seq<string>, p: Tab -> bool) {
    exists i | 0 <= i < |tabs| :: tabs[i].id in ids && p(tabs[i])
  }

  function CloseTabs(s: State, ids: seq<string>, confirmed: bool, closeOks: map<string, bool>, freshId: string): State {
    if ids == [] || AnyTab(s.tabs, ids, (t: Tab) => t.loading) then s
    else if AnyTab(s.tabs, ids, Busy) && !confirmed then s
    else CloseEach(s, ids, closeOks, freshId)
  }

  // ------------------------------------------------------------------- the invariant

  ghost predicate DistinctTabs(tabs: seq<Tab>) {
    forall i, j | 0 <= i < j < |tabs| :: tabs[i].id != tabs[j].id
  }

  ghost predicate HasTab(tabs: seq<Tab>, id: string) {
    exists t :: t in tabs && t.id == id
  }

  /** Every tab notes the session on record for it, and sessions are on record for tabs only. */
  ghost predicate TabsMatch(tabs: seq<Tab>, sessions: map<string, string>) {
    && DistinctTabs(tabs)
    && (forall t | t in tabs :: t.sessionId == Lookup(sessions, t.id))
    && (forall id | id in sessions :: HasTab(tabs, id))
  }

  /** The recorded session of id is open at the engine, with the recorded permission. */
  ghost predicate Opened(sessions: map<string, string>, permissions: map<string, bool>, server: map<string, Session>, id: string) {
    id in sessions && id in permissions && sessions[id] in server && server[sessions[id]] == Session(permissions[id], true)
  }

  /** The open sessions are exactly the recorded ones, each recorded once and with its permission. */
  ghost predicate Owned(sessions: map<string, string>, permissions: map<string, bool>, server: map<string, Session>) {
    && permissions.Keys == sessions.Keys
    && (forall id | id in sessions :: Opened(sessions, permissions, server, id))
    && (forall a, b | a in sessions && b in sessions && a != b :: sessions[a] != sessions[b])
    && (forall sid | sid in server && server[sid].open :: exists id :: id in sessions && sessions[id] == sid)
  }

  /** Every open session belongs to exactly one tab, under the permission it was opened with. */
  ghost predicate Inv(s: State) {
    TabsMatch(s.tabs, s.sessions) && Owned(s.sessions, s.permissions, s.server)
  }

  /** Sessions never change permission and never reopen. */
  ghost predicate Advances(before: map<string, Session>, after: map<string, Session>) {
    forall sid | sid in before ::
      sid in after && after[sid].allowWrite == before[sid].allowWrite && (after[sid].open ==> before[sid].open)
  }

  // ------------------------------------------------------------- keeping the invariant

  lemma PutTabKeeps(tabs: seq<Tab>, tab: Tab)
    requires DistinctTabs(tabs)
    ensures DistinctTabs(PutTab(tabs, tab))
    ensures forall id: string :: HasTab(PutTab(tabs, tab), id) <==> HasTab(tabs, id)
    ensures forall t :: t in PutTab(tabs, tab) ==> t == tab || (t in tabs && t.id != tab.id)
  {
    var r := PutTab(tabs, tab);
    forall id: string ensures HasTab(r, id) <==> HasTab(tabs, id) {
      if HasTab(r, id) {
        var i :| 0 <= i < |r| && r[i].id == id;
        assert tabs[i] in tabs && tabs[i].id == id;
      }
      if HasTab(tabs, id) {
        var i :| 0 <= i < |tabs| && tabs[i].id == id;
        assert r[i] in r && r[i].id == id;
      }
    }
  }

  lemma {:induction false} WithoutTabKeeps(tabs: seq<Tab>, id: string)
    requires DistinctTabs(tabs)
    ensures DistinctTabs(WithoutTab(tabs, id))
    ensures forall other: string :: HasTab(WithoutTab(tabs, id), other) <==> HasTab(tabs, other) && other != id
  {
    var r := WithoutTab(tabs, id);
    if tabs != [] {
      WithoutTabKeeps(tabs[1..], id);
      var rest := WithoutTab(tabs[1..], id);
      assert forall i :: 0 <= i < |rest| ==> rest[i] in rest;
    }
    forall other: string ensures HasTab(r, other) <==> HasTab(tabs, other) && other != id {
      if HasTab(r, other) { var t :| t in r && t.id == other; assert t in tabs; }
      if HasTab(tabs, other) && other != id { var t :| t in tabs && t.id == other; assert t in r; }
    }
  }

  lemma MatchAfterPut(tabs: seq<Tab>, sessions: map<string, string>, sessions': map<string, string>, tab: Tab)
    requires TabsMatch(tabs, sessions) && HasTab(tabs, tab.id)
    requires tab.sessionId == Lookup(sessions', tab.id)
    requires forall id: string | id != tab.id :: Lookup(sessions', id) == Lookup(sessions, id)
    ensures TabsMatch(PutTab(tabs, tab), sessions')
  {
    PutTabKeeps(tabs, tab);
    forall id | id in sessions' ensures HasTab(PutTab(tabs, tab), id) {
      assert id != tab.id ==> Lookup(sessions', id) == Lookup(sessions, id);
    }
  }

  lemma OwnedAfterClose(sessions: map<string, string>, permissions: map<string, bool>, server: map<string, Session>, id: string)
    requires Owned(sessions, permissions, server) && id in sessions
    ensures sessions[id] in server
    ensures Owned(sessions - {id}, permissions - {id}, server[sessions[id] := server[sessions[id]].(open := false)])
  {
    assert Opened(sessions, permissions, server, id);
    var sessions', permissions' := sessions - {id}, permissions - {id};
    var server' := server[sessions[id] := server[sessions[id]].(open := false)];
    assert permissions'.Keys == sessions'.Keys;
    forall k | k in sessions' ensures Opened(sessions', permissions', server', k) {
      assert Opened(sessions, permissions, server, k);
    }
    forall sid | sid in server' && server'[sid].open ensures exists k :: k in sessions' && sessions'[k] == sid {
      var k :| k in sessions && sessions[k] == sid;
      assert k in sessions' && sessions'[k] == sid;
    }
  }

  lemma OwnedAfterOpen(sessions: map<string, string>, permissions: map<string, bool>, server: map<string, Session>,
                       id: string, allowWrite: bool, sid: string)
    requires Owned(sessions, permissions, server) && id !in sessions && sid !in server
    ensures Owned(sessions[id := sid], permissions[id := allowWrite], server[sid := Session(allowWrite, true)])
  {
    var sessions', permissions' := sessions[id := sid], permissions[id := allowWrite];
    var server' := server[sid := Session(allowWrite, true)];
    assert permissions'.Keys == permissions.Keys + {id} && sessions'.Keys == sessions.Keys + {id};
    forall k | k in sessions' ensures Opened(sessions', permissions', server', k) && (k != id ==> sessions'[k] != sid) {
      if k != id { assert Opened(sessions, permissions, server, k); }
    }
    forall k | k in server' && server'[k].open ensures exists o :: o in sessions' && sessions'[o] == k {
      if k == sid {
        assert sessions'[id] == k;
      } else {
        var o :| o in sessions && sessions[o] == k;
        assert o in sessions' && sessions'[o] == k;
      }
    }
  }

  lemma NoteIsRecord(s: State, id: string)
    requires Inv(s)
    ensures SessionOf(s, id) == Lookup(s.sessions, id)
    ensures FindTab(s.tabs, id).Some? <==> HasTab(s.tabs, id)
    ensures id in s.sessions ==> FindTab(s.tabs, id).Some?
    ensures FindTab(s.tabs, id).Some? ==> FindTab(s.tabs, id).value.sessionId == Lookup(s.sessions, id)
  {
    if id in s.sessions { assert HasTab(s.tabs, id); }
  }

  /** Changing a tab in ways that do not concern its session keeps the invariant. */
  lemma EditKeepsInv(s: State, tab: Tab)
    requires Inv(s) && HasTab(s.tabs, tab.id) && tab.sessionId == Lookup(s.sessions, tab.id)
    ensures Inv(s.(tabs := PutTab(s.tabs, tab)))
  {
    MatchAfterPut(s.tabs, s.sessions, s.sessions, tab);
  }

  /** A successful close of a recorded session, spelled out. */
  function Closed(s: State, tab: Tab): State
    requires tab.id in s.sessions && s.sessions[tab.id] in s.server
  {
    var sid := s.sessions[tab.id];
    State(PutTab(s.tabs, tab.(sessionId := None, tx := Idle)), s.sessions - {tab.id}, s.permissions - {tab.id},
          s.server[sid := s.server[sid].(open := false)])
  }

  lemma CloseCases(s: State, id: string, closeOk: bool)
    requires Inv(s)
    ensures id !in s.sessions ==> Close(s, id, closeOk) == (s, true)
    ensures id in s.sessions && !closeOk ==> Close(s, id, closeOk) == (s, false)
    ensures id in s.sessions && closeOk ==>
      && FindTab(s.tabs, id).Some? && s.sessions[id] in s.server
      && Close(s, id, closeOk) == (Closed(s, FindTab(s.tabs, id).value), true)
  {
    NoteIsRecord(s, id);
    if id in s.sessions { assert Opened(s.sessions, s.permissions, s.server, id); }
  }

  lemma ClosedKeepsInv(s: State, tab: Tab)
    requires Inv(s) && HasTab(s.tabs, tab.id) && tab.id in s.sessions
    ensures s.sessions[tab.id] in s.server
    ensures Inv(Closed(s, tab)) && Advances(s.server, Closed(s, tab).server)
  {
    OwnedAfterClose(s.sessions, s.permissions, s.server, tab.id);
    MatchAfterPut(s.tabs, s.sessions, s.sessions - {tab.id}, tab.(sessionId := None, tx := Idle));
  }

  lemma CloseKeepsInv(s: State, id: string, closeOk: bool)
    requires Inv(s)
    ensures Inv(Close(s, id, closeOk).0) && Advances(s.server, Close(s, id, closeOk).0.server)
    ensures Close(s, id, closeOk).1 ==> id !in Close(s, id, closeOk).0.sessions
    ensures !Close(s, id, closeOk).1 ==> Close(s, id, closeOk).0 == s
    ensures forall k: string :: HasTab(Close(s, id, closeOk).0.tabs, k) <==> HasTab(s.tabs, k)
  {
    CloseCases(s, id, closeOk);
    if id in s.sessions && closeOk {
      var tab := FindTab(s.tabs, id).value;
      ClosedKeepsInv(s, tab);
      PutTabKeeps(s.tabs, tab.(sessionId := None, tx := Idle));
    }
  }

  lemma EnsureCases(s: State, id: string, allowWrite: bool, closeOk: bool, answer: Option<string>)
    ensures var r := Ensure(s, id, allowWrite, closeOk, answer);
      || r.0 == s
      || (Close(s, id, closeOk).1 && r == Reopen(Close(s, id, closeOk).0, id, allowWrite, answer))
  {
  }

  lemma EnsureKeepsInv(s: State, id: string, allowWrite: bool, closeOk: bool, answer: Option<string>)
    requires Inv(s) && HasTab(s.tabs, id) && (answer.Some? ==> answer.value !in s.server)
    ensures Inv(Ensure(s, id, allowWrite, closeOk, answer).0)
    ensures Advances(s.server, Ensure(s, id, allowWrite, closeOk, answer).0.server)
  {
    EnsureCases(s, id, allowWrite, closeOk, answer);
    var r := Ensure(s, id, allowWrite, closeOk, answer).0;
    if r != s {
      var s1 := Close(s, id, closeOk).0;
      CloseKeepsInv(s, id, closeOk);
      assert answer.Some? ==> answer.value !in s1.server by { CloseCases(s, id, closeOk); }
      ReopenKeepsInv(s1, id, allowWrite, answer);
    }
  }

  /** The last step of Ensure: the tab has no session, and the engine answers. */
  lemma ReopenKeepsInv(s: State, id: string, allowWrite: bool, answer: Option<string>)
    requires Inv(s) && HasTab(s.tabs, id) && id !in s.sessions && (answer.Some? ==> answer.value !in s.server)
    ensures Inv(Reopen(s, id, allowWrite, answer).0) && Advances(s.server, Reopen(s, id, allowWrite, answer).0.server)
  {
    NoteIsRecord(s, id);
    var tab := FindTab(s.tabs, id).value;
    match answer
    case None => EditKeepsInv(s, tab.(tx := Idle, sessionId := None));
    case Some(sid) => OpenedKeepsInv(s, tab, allowWrite, sid);
  }

  lemma OpenedKeepsInv(s: State, tab: Tab, allowWrite: bool, sid: string)
    requires Inv(s) && HasTab(s.tabs, tab.id) && tab.id !in s.sessions && sid !in s.server
    ensures Inv(State(PutTab(s.tabs, tab.(tx := Idle, sessionId := Some(sid))), s.sessions[tab.id := sid],
                      s.permissions[tab.id := allowWrite], s.server[sid := Session(allowWrite, true)]))
  {
    OwnedAfterOpen(s.sessions, s.permissions, s.server, tab.id, allowWrite, sid);
    MatchAfterPut(s.tabs, s.sessions, s.sessions[tab.id := sid], tab.(tx := Idle, sessionId := Some(sid)));
  }

  /** For a tab that does not exist a session would be opened that no tab owns; this is the only way to lose one. */
  lemma EnsureNeedsItsTab(s: State, id: string, allowWrite: bool, closeOk: bool, answer: Option<string>)
    requires Inv(s) && (answer.Some? ==> answer.value !in s.server)
    ensures Inv(Ensure(s, id, allowWrite, closeOk, answer).0) <==> HasTab(s.tabs, id) || answer.None?
  {
    NoteIsRecord(s, id);
    if HasTab(s.tabs, id) { EnsureKeepsInv(s, id, allowWrite, closeOk, answer); }
  }

  /** What a caller gets from ensureTransactionSession: an open session of its own tab, with the permission it asked for. */
  lemma EnsureGivesPermission(s: State, id: string, allowWrite: bool, closeOk: bool, answer: Option<string>)
    requires Inv(s)
    ensures var (s', sid) := Ensure(s, id, allowWrite, closeOk, answer);
      sid.Some? ==>
        && sid.value in s'.server && s'.server[sid.value] == Session(allowWrite, true)
        && id in s'.sessions && s'.sessions[id] == sid.value
  {
    NoteIsRecord(s, id);
    if id in s.sessions { assert Opened(s.sessions, s.permissions, s.server, id); }
  }

  /** While a tab's transaction is open its session is neither replaced nor changed, whatever is asked for. */
  lemma BusySessionStays(s: State, id: string, allowWrite: bool, closeOk: bool, answer: Option<string>)
    requires Inv(s) && FindTab(s.tabs, id).Some? && Busy(FindTab(s.tabs, id).value) && id in s.sessions
    ensures var (s', sid) := Ensure(s, id, allowWrite, closeOk, answer);
      s' == s && (sid.Some? <==> s.permissions[id] == allowWrite)
    ensures forall readOnlyProfile, next :: ChangeWriteMode(s, readOnlyProfile, id, next, closeOk) == s
  {
    NoteIsRecord(s, id);
  }

  // -------------------------------------------------------------------- runs

  datatype Op =
    | EnsureOp(id: string, allowWrite: bool, closeOk: bool, answer: Option<string>)
    | ChangeWriteModeOp(readOnlyProfile: bool, id: string, next: bool, closeOk: bool)
    | SetModeOp(id: string, mode: Mode, confirmed: bool, rollbackOk: bool, configureOk: bool)
    | FinishOp(id: string, ok: bool)
    | CloseManagedOp(id: string, confirmed: bool, closeOk: bool)
    | ReportOp(id: string, tx: TxState, loading: bool)
    | CreateTabOp(id: string)
    | CloseTabsOp(ids: seq<string>, confirmed: bool, closeOks: map<string, bool>, freshId: string)

  function Step(s: State, op: Op): State {
    match op
    case EnsureOp(id, allowWrite, closeOk, answer) => Ensure(s, id, allowWrite, closeOk, answer).0
    case ChangeWriteModeOp(ro, id, next, closeOk) => ChangeWriteMode(s, ro, id, next, closeOk)
    case SetModeOp(id, mode, confirmed, rollbackOk, configureOk) => SetMode(s, id, mode, confirmed, rollbackOk, configureOk)
    case FinishOp(id, ok) => Finish(s, id, ok)
    case CloseManagedOp(id, confirmed, closeOk) => CloseManaged(s, id, confirmed, closeOk)
    case ReportOp(id, tx, loading) => Report(s, id, tx, loading)
    case CreateTabOp(id) => CreateTab(s, id)
    case CloseTabsOp(ids, confirmed, closeOks, freshId) => CloseTabs(s, ids, confirmed, closeOks, freshId)
  }

  /** Statements run for tabs that exist, and new ids are new: session ids to the engine, tab ids to the editor. */
  ghost predicate Fresh(s: State, op: Op) {
    match op
    case EnsureOp(id, _, _, answer) => HasTab(s.tabs, id) && (answer.Some? ==> answer.value !in s.server)
    case CreateTabOp(id) => !HasTab(s.tabs, id)
    case CloseTabsOp(ids, _, _, freshId) => !HasTab(s.tabs, freshId) && freshId !in ids
    case _ => true
  }

  lemma RemoveKeepsInv(s: State, id: string, freshId: string)
    requires Inv(s) && id !in s.sessions && !HasTab(s.tabs, freshId)
    ensures var rest := WithoutTab(s.tabs, id);
      var s' := s.(tabs := if rest == [] then [NewTab(freshId)] else rest);
      Inv(s') && (rest != [] ==> !HasTab(s'.tabs, freshId)) && (rest == [] ==> forall k: string :: HasTab(s'.tabs, k) ==> k == freshId)
  {
    WithoutTabKeeps(s.tabs, id);
    var rest := WithoutTab(s.tabs, id);
    forall k | k in s.sessions ensures HasTab(rest, k) { assert HasTab(s.tabs, k); }
    if rest == [] {
      assert freshId !in s.sessions;
      assert s.sessions == map[];
    }
  }

  lemma {:induction false} CloseEachKeepsInv(s: State, ids: seq<string>, closeOks: map<string, bool>, freshId: string)
    requires Inv(s) && freshId !in ids
    requires !HasTab(s.tabs, freshId) || forall k: string :: HasTab(s.tabs, k) ==> k == freshId
    ensures Inv(CloseEach(s, ids, closeOks, freshId)) && Advances(s.server, CloseEach(s, ids, closeOks, freshId).server)
    decreases |ids|
  {
    if ids != [] {
      NoteIsRecord(s, ids[0]);
      if FindTab(s.tabs, ids[0]).None? {
        CloseEachKeepsInv(s, ids[1..], closeOks, freshId);
      } else if !FindTab(s.tabs, ids[0]).value.loading {
        CloseKeepsInv(s, ids[0], CloseOk(closeOks, ids[0]));
        var (s1, closed) := Close(s, ids[0], CloseOk(closeOks, ids[0]));
        if closed {
          assert HasTab(s.tabs, ids[0]) && ids[0] != freshId;
          RemoveKeepsInv(s1, ids[0], freshId);
          var rest := WithoutTab(s1.tabs, ids[0]);
          CloseEachKeepsInv(s1.(tabs := if rest == [] then [NewTab(freshId)] else rest), ids[1..], closeOks, freshId);
        }
      }
    }
  }

  lemma SetModeKeepsInv(s: State, id: string, mode: Mode, confirmed: bool, rollbackOk: bool, configureOk: bool)
    requires Inv(s)
    ensures var s' := SetMode(s, id, mode, confirmed, rollbackOk, configureOk); Inv(s') && s'.server == s.server
  {
    NoteIsRecord(s, id);
    if FindTab(s.tabs, id).Some? { EditKeepsInv(s, FindTab(s.tabs, id).value.(mode := mode, tx := Idle)); }
  }

  lemma FinishKeepsInv(s: State, id: string, ok: bool)
    requires Inv(s)
    ensures var s' := Finish(s, id, ok); Inv(s') && s'.server == s.server
  {
    NoteIsRecord(s, id);
    if FindTab(s.tabs, id).Some? { EditKeepsInv(s, FindTab(s.tabs, id).value.(tx := if ok then Idle else FailedTx)); }
  }

  lemma ReportKeepsInv(s: State, id: string, tx: TxState, loading: bool)
    requires Inv(s)
    ensures var s' := Report(s, id, tx, loading); Inv(s') && s'.server == s.server
  {
    NoteIsRecord(s, id);
    if FindTab(s.tabs, id).Some? { EditKeepsInv(s, FindTab(s.tabs, id).value.(tx := tx, loading := loading)); }
  }

  /** Every handler keeps the invariant, changes no session's permission and reopens none. */
  lemma StepKeepsInv(s: State, op: Op)
    requires Inv(s) && Fresh(s, op)
    ensures Inv(Step(s, op)) && Advances(s.server, Step(s, op).server)
  {
    match op
    case EnsureOp(id, allowWrite, closeOk, answer) => EnsureKeepsInv(s, id, allowWrite, closeOk, answer);
    case ChangeWriteModeOp(ro, id, next, closeOk) => ChangeWriteModeKeepsInv(s, ro, id, next, closeOk);
    case SetModeOp(id, mode, confirmed, rollbackOk, configureOk) => SetModeKeepsInv(s, id, mode, confirmed, rollbackOk, configureOk);
    case FinishOp(id, ok) => FinishKeepsInv(s, id, ok);
    case CloseManagedOp(id, _, closeOk) => CloseKeepsInv(s, id, closeOk);
    case ReportOp(id, tx, loading) => ReportKeepsInv(s, id, tx, loading);
    case CreateTabOp(id) =>
      CreateKeepsInv(s, id);
    case CloseTabsOp(ids, _, closeOks, freshId) =>
      CloseEachKeepsInv(s, ids, closeOks, freshId);
  }

  lemma ChangeWriteModeKeepsInv(s: State, readOnlyProfile: bool, id: string, next: bool, closeOk: bool)
    requires Inv(s)
    ensures var s' := ChangeWriteMode(s, readOnlyProfile, id, next, closeOk); Inv(s') && Advances(s.server, s'.server)
  {
    NoteIsRecord(s, id);
    if FindTab(s.tabs, id).Some? {
      CloseKeepsInv(s, id, closeOk);
      var s1 := if FindTab(s.tabs, id).value.sessionId.Some? then Close(s, id, closeOk).0 else s;
      NoteIsRecord(s1, id);
      EditKeepsInv(s1, FindTab(s1.tabs, id).value.(writeMode := next));
    }
  }

  lemma CreateKeepsInv(s: State, id: string)
    requires Inv(s) && !HasTab(s.tabs, id)
    ensures Inv(CreateTab(s, id))
  {
    var tabs := s.tabs + [NewTab(id)];
    forall i, j | 0 <= i < j < |tabs| ensures tabs[i].id != tabs[j].id {
      assert s.tabs[i] in s.tabs;
    }
    forall k | k in s.sessions ensures HasTab(tabs, k) {
      assert HasTab(s.tabs, k);
      var t :| t in s.tabs && t.id == k;
      assert t in tabs;
    }
    assert id !in s.sessions;
  }

  /** The record of id is as before, or gone. */
  ghost predicate KeptOrGone(s: State, s': State, id: string) {
    id in s'.sessions ==>
      Lookup(s'.sessions, id) == Lookup(s.sessions, id) && Lookup(s'.permissions, id) == Lookup(s.permissions, id)
  }

  lemma {:induction false} CloseEachKeepsOrDrops(s: State, ids: seq<string>, closeOks: map<string, bool>, freshId: string, id: string)
    ensures KeptOrGone(s, CloseEach(s, ids, closeOks, freshId), id)
    ensures id !in ids && id in s.sessions ==> id in CloseEach(s, ids, closeOks, freshId).sessions
    decreases |ids|
  {
    if ids != [] {
      if FindTab(s.tabs, ids[0]).None? {
        CloseEachKeepsOrDrops(s, ids[1..], closeOks, freshId, id);
      } else if !FindTab(s.tabs, ids[0]).value.loading {
        var (s1, closed) := Close(s, ids[0], CloseOk(closeOks, ids[0]));
        if closed {
          var rest := WithoutTab(s1.tabs, ids[0]);
          CloseEachKeepsOrDrops(s1.(tabs := if rest == [] then [NewTab(freshId)] else rest), ids[1..], closeOks, freshId, id);
        }
      }
    }
  }

  /** The user agreed to close this tab or its session. */
  predicate ConfirmedClose(op: Op, id: string) {
    || (op.CloseManagedOp? && op.id == id && op.confirmed)
    || (op.CloseTabsOp? && id in op.ids && op.confirmed)
  }

  /** The session handlers of one tab leave the records of the others alone. */
  lemma OthersKeepTheirRecord(s: State, op: Op, id: string)
    requires op.EnsureOp? || op.ChangeWriteModeOp? || op.CloseManagedOp?
    requires op.id != id
    ensures KeptOrGone(s, Step(s, op), id) && (id in s.sessions ==> id in Step(s, op).sessions)
  {
    match op
    case EnsureOp(other, allowWrite, closeOk, answer) => EnsureIsLocal(s, other, allowWrite, closeOk, answer, id);
    case ChangeWriteModeOp(_, other, _, closeOk) => CloseIsLocal(s, other, closeOk, id);
    case CloseManagedOp(other, _, closeOk) => CloseIsLocal(s, other, closeOk, id);
  }

  /** The record of id is as before. */
  ghost predicate SameRecord(s: State, s': State, id: string) {
    Lookup(s'.sessions, id) == Lookup(s.sessions, id) && Lookup(s'.permissions, id) == Lookup(s.permissions, id)
  }

  lemma CloseIsLocal(s: State, other: string, closeOk: bool, id: string)
    requires other != id
    ensures SameRecord(s, Close(s, other, closeOk).0, id)
  {
  }

  lemma EnsureIsLocal(s: State, other: string, allowWrite: bool, closeOk: bool, answer: Option<string>, id: string)
    requires other != id
    ensures SameRecord(s, Ensure(s, other, allowWrite, closeOk, answer).0, id)
  {
    EnsureCases(s, other, allowWrite, closeOk, answer);
    CloseIsLocal(s, other, closeOk, id);
  }

  lemma CloseTabsKeepsOrDrops(s: State, ids: seq<string>, confirmed: bool, closeOks: map<string, bool>, freshId: string, id: string)
    requires FindTab(s.tabs, id).Some? && Busy(FindTab(s.tabs, id).value) && id in s.sessions
    ensures var s' := CloseTabs(s, ids, confirmed, closeOks, freshId);
      KeptOrGone(s, s', id) && (id !in s'.sessions ==> id in ids && confirmed)
  {
    CloseEachKeepsOrDrops(s, ids, closeOks, freshId, id);
    var k :| 0 <= k < |s.tabs| && s.tabs[k] == FindTab(s.tabs, id).value;
    assert id in ids ==> AnyTab(s.tabs, ids, Busy);
  }

  /**
   While a tab's transaction is opening, active or failed, no handler replaces its session or changes
   the permission it runs under; the session only ends when the user confirms closing it.
   */
  lemma BusySessionIsKept(s: State, op: Op, id: string)
    requires Inv(s) && FindTab(s.tabs, id).Some? && Busy(FindTab(s.tabs, id).value) && id in s.sessions
    ensures KeptOrGone(s, Step(s, op), id)
    ensures id !in Step(s, op).sessions ==> ConfirmedClose(op, id)
  {
    if TouchesSessions(op) {
      match op
      case CloseTabsOp(ids, confirmed, closeOks, freshId) => CloseTabsKeepsOrDrops(s, ids, confirmed, closeOks, freshId, id);
      case EnsureOp(other, _, _, _) => BusyAtEnsure(s, op, id);
      case ChangeWriteModeOp(_, other, _, _) => BusyAtChange(s, op, id);
      case CloseManagedOp(other, _, _) => BusyAtClose(s, op, id);
    } else {
      RecordsUntouched(s, op);
    }
  }

  /** The handlers that open or close sessions. */
  predicate TouchesSessions(op: Op) {
    op.EnsureOp? || op.ChangeWriteModeOp? || op.CloseManagedOp? || op.CloseTabsOp?
  }

  lemma RecordsUntouched(s: State, op: Op)
    requires !TouchesSessions(op)
    ensures Step(s, op).sessions == s.sessions && Step(s, op).permissions == s.permissions
  {
  }

  lemma BusyAtEnsure(s: State, op: Op, id: string)
    requires Inv(s) && FindTab(s.tabs, id).Some? && Busy(FindTab(s.tabs, id).value) && id in s.sessions && op.EnsureOp?
    ensures KeptOrGone(s, Step(s, op), id) && id in Step(s, op).sessions
  {
    if op.id == id { BusySessionStays(s, id, op.allowWrite, op.closeOk, op.answer); } else { OthersKeepTheirRecord(s, op, id); }
  }

  lemma BusyAtChange(s: State, op: Op, id: string)
    requires FindTab(s.tabs, id).Some? && Busy(FindTab(s.tabs, id).value) && id in s.sessions && op.ChangeWriteModeOp?
    ensures KeptOrGone(s, Step(s, op), id) && id in Step(s, op).sessions
  {
    if op.id != id { OthersKeepTheirRecord(s, op, id); }
  }

  lemma BusyAtClose(s: State, op: Op, id: string)
    requires FindTab(s.tabs, id).Some? && Busy(FindTab(s.tabs, id).value) && id in s.sessions && op.CloseManagedOp?
    ensures KeptOrGone(s, Step(s, op), id) && (id !in Step(s, op).sessions ==> ConfirmedClose(op, id))
  {
    if op.id != id { OthersKeepTheirRecord(s, op, id); }
  }

  function RunOps(s: State, ops: seq<Op>): State
    decreases |ops|
  {
    if ops == [] then s else RunOps(Step(s, ops[0]), ops[1..])
  }

  ghost predicate AllFresh(s: State, ops: seq<Op>)
    decreases |ops|
  {
    ops == [] || (Fresh(s, ops[0]) && AllFresh(Step(s, ops[0]), ops[1..]))
  }

  /**
   Over every run of the handlers: each open session belongs to exactly one tab under the permission
   it was opened with, every other session is closed for good, and no session ever changes permission.
   */
  lemma {:induction false} RunsKeepInv(s: State, ops: seq<Op>)
    requires Inv(s) && AllFresh(s, ops)
    ensures Inv(RunOps(s, ops)) && Advances(s.server, RunOps(s, ops).server)
    decreases |ops|
  {
    if ops != [] {
      StepKeepsInv(s, ops[0]);
      RunsKeepInv(Step(s, ops[0]), ops[1..]);
    }
  }

  /** A run is its steps, one after the other. */
  lemma {:induction false} RunsCompose(s: State, before: seq<Op>, op: Op)
    ensures RunOps(s, before + [op]) == Step(RunOps(s, before), op)
    decreases |before|
  {
    var ops := before + [op];
    if before == [] {
      assert ops == [op] && ops[1..] == [];
    } else {
      assert ops[0] == before[0] && ops[1..] == before[1..] + [op];
      RunsCompose(Step(s, before[0]), before[1..], op);
    }
  }

  /** A new editor: one tab, no session. */
  lemma StartIsInv(id: string)
    ensures Inv(State([NewTab(id)], map[], map[], map[]))
  {
    assert NewTab(id) in [NewTab(id)];
  }
}

/**
 Running a script of several statements and resuming it after a policy prompt
 (runMultiStatements and the resume path of executeQuery in QueryEditor.tsx). The database is an
 unknown function from its state, the run options and a statement to a reply; a policy block is a
 reply that carries no new state.
 */
module MultiRun {
  import opened Text

  datatype Options = Options(database: string, allowWrite: bool, confirmDestructive: bool, fetchAll: bool, acknowledged: bool)
  /** What a resuming user decided; None leaves the option of the blocked run. */
  datatype Grant = Grant(
    database: Option<string>, allowWrite: Option<bool>, confirmDestructive: Option<bool>, fetchAll: Option<bool>,
    acknowledged: Option<bool>)

  function OrElse<T>(choice: Option<T>, default_: T): T {
    match choice
    case Some(v) => v
    case None => default_
  }

  function Granted(o: Options, g: Grant): Options {
    Options(OrElse(g.database, o.database), OrElse(g.allowWrite, o.allowWrite), OrElse(g.confirmDestructive, o.confirmDestructive),
            OrElse(g.fetchAll, o.fetchAll), OrElse(g.acknowledged, o.acknowledged))
  }

  /** What the user decided holds, and what was left open stays as it was. */
  ghost predicate Decided(before: Options, g: Grant, after: Options) {
    && after.database == (if g.database.Some? then g.database.value else before.database)
    && after.allowWrite == (if g.allowWrite.Some? then g.allowWrite.value else before.allowWrite)
    && after.confirmDestructive == (if g.confirmDestructive.Some? then g.confirmDestructive.value else before.confirmDestructive)
    && after.fetchAll == (if g.fetchAll.Some? then g.fetchAll.value else before.fetchAll)
    && after.acknowledged == (if g.acknowledged.Some? then g.acknowledged.value else before.acknowledged)
  }

  datatype Policy = Policy(code: string, message: string)
  datatype Reply<Db> = Blocked(policy: Policy) | Ran(db: Db, rows: nat, error: Option<string>)
  datatype ResultSet = ResultSet(statement: string, rows: nat, error: Option<string>)
  datatype ExecState = Waiting | Running | Success | Error | Skipped

  /** The engine: replies to one statement under the given options. */
  type Engine<!Db> = (Db, Options, string) -> Reply<Db>

  /** Why a run stopped, and at which statement. */
  datatype Stop = Completed | BlockedAt(index: nat, policy: Policy) | FailedAt(index: nat) | AbortedAfter(index: nat)
  datatype RunResult<Db> = RunResult(db: Db, results: seq<ResultSet>, stop: Stop)

  // ------------------------------------------------------------- the specification

  /** The run from statement i on; aborts says whether cancelling was asked for while statement k ran. */
  function RunFrom<Db>(engine: Engine<Db>, o: Options, stmts: seq<string>, aborts: nat -> bool, i: nat, db: Db,
                       results: seq<ResultSet>): (r: RunResult<Db>)
    requires i <= |stmts|
    ensures r.stop.BlockedAt? ==> i <= r.stop.index < |stmts|
    decreases |stmts| - i
  {
    if i == |stmts| then RunResult(db, results, Completed)
    else
      match engine(db, o, stmts[i])
      case Blocked(policy) => RunResult(db, results, BlockedAt(i, policy))
      case Ran(db', rows, error) =>
        var results' := results + [ResultSet(stmts[i], rows, error)];
        if error.Some? then RunResult(db', results', FailedAt(i))
        else if aborts(i) then RunResult(db', results', AbortedAfter(i))
        else RunFrom(engine, o, stmts, aborts, i + 1, db', results')
  }

  /** How many statements have run once a run has stopped. */
  function Executed(n: nat, stop: Stop): nat {
    match stop
    case Completed => n
    case BlockedAt(k, _) => k
    case FailedAt(k) => k + 1
    case AbortedAfter(k) => k + 1
  }

  /** The state shown for statement j after the run has stopped. */
  function FinalState(stop: Stop, j: nat): ExecState {
    match stop
    case Completed => Success
    case BlockedAt(k, _) => if j < k then Success else Skipped
    case FailedAt(k) => if j < k then Success else if j == k then Error else Skipped
    case AbortedAfter(k) => if j <= k then Success else Skipped
  }

  function FinalStates(n: nat, stop: Stop): (r: seq<ExecState>)
    ensures |r| == n && forall j :: 0 <= j < n ==> r[j] == FinalState(stop, j)
  {
    seq(n, j requires 0 <= j < n => FinalState(stop, j))
  }

  datatype PendingRun = PendingRun(statements: seq<string>, startIndex: nat, options: Options)

  // ------------------------------------------------------------------ the handlers

  /** The statement states once the loop is left: whatever has not run is skipped. */
  function SkipRest(states: seq<ExecState>): (r: seq<ExecState>)
    ensures |r| == |states|
    ensures forall j :: 0 <= j < |r| ==> r[j] == if states[j] in {Waiting, Running} then Skipped else states[j]
  {
    seq(|states|, j requires 0 <= j < |states| => if states[j] in {Waiting, Running} then Skipped else states[j])
  }

  lemma SkipCompletes(states: seq<ExecState>, stop: Stop)
    requires forall j | 0 <= j < |states| ::
      states[j] == FinalState(stop, j) || (states[j] in {Waiting, Running} && FinalState(stop, j) == Skipped)
    ensures SkipRest(states) == FinalStates(|states|, stop)
  {
  }

  function AllWaiting(n: nat): (r: seq<ExecState>)
    ensures |r| == n && forall j :: 0 <= j < n ==> r[j] == Waiting
  {
    seq(n, _ => Waiting)
  }

  /** The statement states when a run is resumed: earlier ones stay, the blocked one runs, the rest waits. */
  function RestartAt(states: seq<ExecState>, start: nat): (r: seq<ExecState>)
    ensures |r| == |states|
    ensures forall j :: 0 <= j < |r| ==> r[j] == if j == start then Running else if j > start then Waiting else states[j]
  {
    seq(|states|, j requires 0 <= j < |states| => if j == start then Running else if j > start then Waiting else states[j])
  }

  /** The run state of one tab, and the database behind its session. */
  class Tab<Db(!new)> {
    const engine: Engine<Db>
    var db: Db
    var executions: seq<ExecState>
    var resultSets: seq<ResultSet>
    var pending: Option<PendingRun>
    var policyPrompt: Option<Policy>
    var error: Option<string>
    var loading: bool

    /** A run waiting for a decision has finished everything before its statement, without error. */
    ghost predicate Valid()
      reads this
    {
      pending.Some? ==>
        var p := pending.value;
        && p.startIndex < |p.statements| == |executions|
        && |resultSets| == p.startIndex
        && (forall j | 0 <= j < p.startIndex :: executions[j] == Success)
        && (forall j | 0 <= j < p.startIndex :: resultSets[j].statement == p.statements[j] && resultSets[j].error.None?)
    }

    constructor (engine: Engine<Db>, db: Db)
      ensures Valid() && pending == None && !loading && this.engine == engine && this.db == db
    {
      this.engine, this.db := engine, db;
      executions, resultSets, pending, policyPrompt, error, loading := [], [], None, None, None, false;
    }

    /** handleQueryChange: an edited query forgets the run. */
    method EditQuery()
      modifies this
      ensures Valid() && pending == None && executions == [] && db == old(db) && resultSets == old(resultSets)
      ensures policyPrompt == old(policyPrompt) && error == old(error) && loading == old(loading)
    {
      pending := None;
      executions := [];
    }

    /** dismissPolicy. */
    method DismissPolicy()
      modifies this
      ensures Valid() && pending == None && policyPrompt == None && db == old(db)
      ensures resultSets == old(resultSets) && executions == old(executions)
      ensures error == old(error) && loading == old(loading)
    {
      pending := None;
      policyPrompt := None;
    }

    /** The loop of runMultiStatements: one statement after the other until something stops it. */
    method RunLoop(stmts: seq<string>, o: Options, aborts: nat -> bool, startIndex: nat) returns (policy: Option<Policy>)
      requires startIndex <= |stmts| == |executions| && |resultSets| == startIndex
      requires forall j | 0 <= j < startIndex :: executions[j] == Success
      requires forall j | startIndex <= j < |stmts| :: executions[j] in {Waiting, Running}
      modifies this`db, this`executions, this`resultSets, this`pending
      ensures var r := RunFrom(engine, o, stmts, aborts, startIndex, old(db), old(resultSets));
        && db == r.db && resultSets == r.results
        && policy == (if r.stop.BlockedAt? then Some(r.stop.policy) else None)
        && (r.stop.BlockedAt? ==> pending == Some(PendingRun(stmts, r.stop.index, o)))
        && SkipRest(executions) == FinalStates(|stmts|, r.stop)
    {
      var collected := resultSets;
      ghost var spec := RunFrom(engine, o, stmts, aborts, startIndex, db, resultSets);
      var i := startIndex;
      policy := None;
      while i < |stmts|
        invariant startIndex <= i <= |stmts| == |executions|
        invariant collected == resultSets && policy == None
        invariant RunFrom(engine, o, stmts, aborts, i, db, collected) == spec
        invariant forall j | 0 <= j < i :: executions[j] == Success
        invariant forall j | i <= j < |stmts| :: executions[j] in {Waiting, Running}
      {
        executions := executions[i := Running];
        match engine(db, o, stmts[i]) {
          case Blocked(p) =>
            pending := Some(PendingRun(stmts, i, o));
            executions := executions[i := Skipped];
            SkipCompletes(executions, BlockedAt(i, p));
            return Some(p);
          case Ran(db', rows, err) =>
            db := db';
            collected := collected + [ResultSet(stmts[i], rows, err)];
            resultSets := collected;
            executions := executions[i := if err.Some? then Error else Success];
            if err.Some? {
              pending := None;
              SkipCompletes(executions, FailedAt(i));
              return;
            }
        }
        if aborts(i) {
          pending := None;
          SkipCompletes(executions, AbortedAfter(i));
          return;
        }
        i := i + 1;
      }
      SkipCompletes(executions, Completed);
    }

    /** runMultiStatements; sessionError is what ensureTransactionSession throws, if it does. */
    method RunMultiStatements(stmts: seq<string>, o: Options, aborts: nat -> bool, startIndex: nat, sessionError: Option<string>)
      requires Valid()
      requires startIndex > 0 && 2 <= |stmts| && startIndex < |stmts| ==>
        pending.Some? && pending.value.statements == stmts && pending.value.startIndex == startIndex
      modifies this
      ensures Valid()
      ensures startIndex > 0 && !(2 <= |stmts| && startIndex < |stmts|) ==>
        && db == old(db) && pending == old(pending) && executions == old(executions) && resultSets == old(resultSets)
        && policyPrompt == old(policyPrompt) && error == old(error) && loading == old(loading)
      ensures startIndex == 0 || (2 <= |stmts| && startIndex < |stmts|) ==> !loading && error == sessionError
      ensures (startIndex == 0 || (2 <= |stmts| && startIndex < |stmts|)) && sessionError.Some? ==>
        && db == old(db) && policyPrompt == None
        && pending == (if startIndex > 0 then old(pending) else None)
        && resultSets == (if startIndex > 0 then old(resultSets) else [])
        && executions == (if startIndex > 0 then RestartAt(old(executions), startIndex) else AllWaiting(|stmts|))
      ensures (startIndex == 0 || (2 <= |stmts| && startIndex < |stmts|)) && sessionError.None? ==>
        var r := RunFrom(engine, o, stmts, aborts, startIndex, old(db), if startIndex > 0 then old(resultSets) else []);
        && db == r.db && resultSets == r.results
        && executions == FinalStates(|stmts|, r.stop)
        && policyPrompt == (if r.stop.BlockedAt? then Some(r.stop.policy) else None)
        && pending == (if r.stop.BlockedAt? then Some(PendingRun(stmts, r.stop.index, o)) else None)
    {
      if startIndex > 0 && !(|stmts| >= 2 && startIndex < |stmts|) { return; }
      var isResume := startIndex > 0;
      loading := true;
      error := None;
      policyPrompt := None;
      if isResume {
        executions := RestartAt(executions, startIndex);
      } else {
        pending := None;
        resultSets := [];
        executions := AllWaiting(|stmts|);
      }
      if sessionError.Some? {
        loading := false;
        error := sessionError;
        return;
      }
      RunKeepsOrder(engine, o, stmts, aborts, startIndex, db, resultSets);
      policyPrompt := RunLoop(stmts, o, aborts, startIndex);
      if policyPrompt.None? { pending := None; }
      executions := SkipRest(executions);
      loading := false;
    }

    /** The resume path of executeQuery, with what the user granted; false when there is nothing to resume. */
    method Resume(grant: Grant, aborts: nat -> bool, sessionError: Option<string>) returns (resumed: bool)
      requires Valid()
      modifies this
      ensures Valid()
      ensures resumed <==>
        (!old(loading) && old(pending).Some? && |old(pending).value.statements| >= 2)
      ensures !resumed ==>
        && db == old(db) && pending == old(pending) && executions == old(executions) && resultSets == old(resultSets)
        && policyPrompt == old(policyPrompt) && error == old(error) && loading == old(loading)
      ensures resumed ==> !loading && error == sessionError
      ensures resumed && sessionError.Some? ==>
        var start := old(pending).value.startIndex;
        && db == old(db) && policyPrompt == None
        && pending == (if start > 0 then old(pending) else None) && resultSets == old(resultSets)
        && executions == (if start > 0 then RestartAt(old(executions), start) else AllWaiting(|old(executions)|))
      ensures resumed && sessionError.None? ==>
        forall o | Decided(old(pending).value.options, grant, o) ::
          var p := old(pending).value;
          var r := RunFrom(engine, o, p.statements, aborts, p.startIndex, old(db), old(resultSets));
          && db == r.db && resultSets == r.results && executions == FinalStates(|p.statements|, r.stop)
          && policyPrompt == (if r.stop.BlockedAt? then Some(r.stop.policy) else None)
          && pending == (if r.stop.BlockedAt? then Some(PendingRun(p.statements, r.stop.index, o)) else None)
    {
      if loading || pending.None? { return false; }
      var p := pending.value;
      if !(|p.statements| >= 2 && p.startIndex < |p.statements|) { return false; }
      RunMultiStatements(p.statements, Granted(p.options, grant), aborts, p.startIndex, sessionError);
      return true;
    }
  }

  // ------------------------------------------------------------------ what runs keep

  /** Result j belongs to statement j. */
  ghost predicate InOrder(stmts: seq<string>, results: seq<ResultSet>) {
    |results| <= |stmts| && forall j | 0 <= j < |results| :: results[j].statement == stmts[j]
  }

  /** Every statement up to the stop has exactly one result, in its own place, and no later one has any. */
  lemma {:induction false} RunKeepsOrder<Db>(engine: Engine<Db>, o: Options, stmts: seq<string>, aborts: nat -> bool,
                                                i: nat, db: Db, results: seq<ResultSet>)
    requires |results| == i && InOrder(stmts, results)
    ensures var r := RunFrom(engine, o, stmts, aborts, i, db, results);
      && |r.results| == Executed(|stmts|, r.stop) >= i && InOrder(stmts, r.results)
      && results <= r.results
      && (forall j | i <= j < |r.results| :: r.results[j].error.Some? <==> r.stop == FailedAt(j))
      && (!r.stop.Completed? ==> i <= r.stop.index < |stmts|)
    decreases |stmts| - i
  {
    if i < |stmts| {
      match engine(db, o, stmts[i])
      case Blocked(_) =>
      case Ran(db', rows, error) =>
        var results' := results + [ResultSet(stmts[i], rows, error)];
        if error.None? && !aborts(i) {
          RunKeepsOrder(engine, o, stmts, aborts, i + 1, db', results');
          assert RunFrom(engine, o, stmts, aborts, i + 1, db', results').results[i] == results'[i];
        }
    }
  }

  /**
   What the editor shows agrees with the results: after a run, resumed or not, a statement is marked a
   success exactly if it has a result without error, an error exactly if its result carries one, and
   skipped exactly if it has none; only the last result can carry an error.
   */
  lemma StatesHaveShape<Db>(engine: Engine<Db>, o: Options, stmts: seq<string>, aborts: nat -> bool, i: nat, db: Db,
                            results: seq<ResultSet>)
    requires |results| == i && InOrder(stmts, results) && forall j | 0 <= j < i :: results[j].error.None?
    ensures var r := RunFrom(engine, o, stmts, aborts, i, db, results);
      var states := FinalStates(|stmts|, r.stop);
      && |r.results| <= |stmts|
      && (forall j | 0 <= j < |stmts| ::
            states[j] == if j >= |r.results| then Skipped else if r.results[j].error.Some? then Error else Success)
      && (forall j | 0 <= j < |r.results| - 1 :: r.results[j].error.None?)
  {
    RunKeepsOrder(engine, o, stmts, aborts, i, db, results);
    var r := RunFrom(engine, o, stmts, aborts, i, db, results);
    forall j | 0 <= j < i ensures r.results[j].error.None? { assert r.results[j] == results[j]; }
  }

  /** The database after statements i up to j have each taken effect once, in order. */
  function Effect<Db>(engine: Engine<Db>, o: Options, stmts: seq<string>, i: nat, j: nat, db: Db): Option<Db>
    requires i <= j <= |stmts|
    decreases j - i
  {
    if i == j then Some(db)
    else match engine(db, o, stmts[i])
      case Blocked(_) => None
      case Ran(db', _, _) => Effect(engine, o, stmts, i + 1, j, db')
  }

  /** The final database is the effect of exactly the statements reported as run, each once and in order. */
  lemma {:induction false} RunEffect<Db>(engine: Engine<Db>, o: Options, stmts: seq<string>, aborts: nat -> bool,
                                            i: nat, db: Db, results: seq<ResultSet>)
    requires i <= |stmts|
    ensures var r := RunFrom(engine, o, stmts, aborts, i, db, results);
      i <= Executed(|stmts|, r.stop) <= |stmts| && Effect(engine, o, stmts, i, Executed(|stmts|, r.stop), db) == Some(r.db)
    decreases |stmts| - i
  {
    if i < |stmts| {
      match engine(db, o, stmts[i])
      case Blocked(_) =>
      case Ran(db', rows, error) =>
        if error.None? && !aborts(i) {
          RunEffect(engine, o, stmts, aborts, i + 1, db', results + [ResultSet(stmts[i], rows, error)]);
        }
    }
  }

  /** The options only decide whether a statement is blocked: what restricted lets through, permitted treats alike. */
  ghost predicate OnlyBlocks<Db(!new)>(engine: Engine<Db>, restricted: Options, permitted: Options) {
    forall db: Db, s: string :: engine(db, restricted, s).Ran? ==> engine(db, restricted, s) == engine(db, permitted, s)
  }

  /**
   Interrupting and resuming equals one permitted run. From any point, a restricted run either is the
   permitted run already, or is blocked at some statement k, and the permitted run resumed at k with the
   results collected so far ends in the same database, the same results and the same stop.
   */
  lemma {:induction false} ResumeEqualsUninterrupted<Db(!new)>(engine: Engine<Db>, restricted: Options, permitted: Options,
      stmts: seq<string>, aborts: nat -> bool, i: nat, db: Db, results: seq<ResultSet>)
    requires i <= |stmts| && OnlyBlocks(engine, restricted, permitted)
    ensures var first := RunFrom(engine, restricted, stmts, aborts, i, db, results);
      var whole := RunFrom(engine, permitted, stmts, aborts, i, db, results);
      if first.stop.BlockedAt? then
        i <= first.stop.index < |stmts| && RunFrom(engine, permitted, stmts, aborts, first.stop.index, first.db, first.results) == whole
      else first == whole
    decreases |stmts| - i
  {
    if i < |stmts| {
      match engine(db, restricted, stmts[i])
      case Blocked(_) =>
      case Ran(db', rows, error) =>
        assert engine(db, permitted, stmts[i]) == Ran(db', rows, error);
        if error.None? && !aborts(i) {
          ResumeEqualsUninterrupted(engine, restricted, permitted, stmts, aborts, i + 1, db', results + [ResultSet(stmts[i], rows, error)]);
        }
    }
  }

  // ---- what a grant achieves

  /** The one option a statement may be blocked for. */
  datatype Need = Database(name: string) | Write | Destructive | FetchAll | Acknowledgement

  predicate Meets(o: Options, need: Need) {
    match need
    case Database(name) => o.database == name
    case Write => o.allowWrite
    case Destructive => o.confirmDestructive
    case FetchAll => o.fetchAll
    case Acknowledgement => o.acknowledged
  }

  /** Some(true) if the grant brings it, Some(false) if it takes it away, None if it leaves it open. */
  function Decision(g: Grant, need: Need): Option<bool> {
    match need
    case Database(name) => if g.database.Some? then Some(g.database.value == name) else None
    case Write => g.allowWrite
    case Destructive => g.confirmDestructive
    case FetchAll => g.fetchAll
    case Acknowledgement => g.acknowledged
  }

  /** The engine blocks this statement for want of that option only. */
  ghost predicate BlockedForWantOf<Db(!new)>(engine: Engine<Db>, s: string, need: Need) {
    forall db: Db, o: Options :: engine(db, o, s).Blocked? <==> !Meets(o, need)
  }

  /**
   A run that is blocked at statement k for want of one option gets past it, resumed with what the user granted,
   exactly if the user granted that option; every option left open is seen by the engine as the blocked run had it.
   */
  lemma GrantGetsPast<Db(!new)>(engine: Engine<Db>, before: Options, g: Grant, after: Options, stmts: seq<string>,
                                aborts: nat -> bool, k: nat, db: Db, results: seq<ResultSet>, need: Need)
    requires k < |stmts| && Decided(before, g, after)
    requires BlockedForWantOf(engine, stmts[k], need) && engine(db, before, stmts[k]).Blocked?
    ensures var stop := RunFrom(engine, after, stmts, aborts, k, db, results).stop;
      (stop.BlockedAt? && stop.index == k) <==> Decision(g, need) != Some(true)
    ensures Decision(g, need).None? ==> (Meets(after, need) <==> Meets(before, need))
  {
    var r := engine(db, after, stmts[k]);
    assert r.Blocked? <==> !Meets(after, need);
    if r.Ran? && r.error.None? && !aborts(k) {
      assert RunFrom(engine, after, stmts, aborts, k, db, results)
        == RunFrom(engine, after, stmts, aborts, k + 1, r.db, results + [ResultSet(stmts[k], r.rows, r.error)]);
    }
  }

  // ---- any number of interruptions

  /** Run, and resume with the next grant as long as the run is blocked and there is one. */
  function ResumeAll<Db>(engine: Engine<Db>, o: Options, grants: seq<Grant>, stmts: seq<string>, aborts: nat -> bool, i: nat,
                         db: Db, results: seq<ResultSet>): RunResult<Db>
    requires i <= |stmts|
    decreases |grants|
  {
    var r := RunFrom(engine, o, stmts, aborts, i, db, results);
    if r.stop.BlockedAt? && grants != [] then
      ResumeAll(engine, Granted(o, grants[0]), grants[1..], stmts, aborts, r.stop.index, r.db, r.results)
    else r
  }

  function GrantedAll(o: Options, grants: seq<Grant>): Options
    decreases |grants|
  {
    if grants == [] then o else GrantedAll(Granted(o, grants[0]), grants[1..])
  }

  /** What was granted last for an option holds; an option nobody decided stays. */
  lemma {:induction false} LastDecisionHolds(o: Options, grants: seq<Grant>)
    ensures grants == [] ==> GrantedAll(o, grants) == o
    ensures grants != [] ==> Decided(GrantedAll(o, grants[..|grants| - 1]), grants[|grants| - 1], GrantedAll(o, grants))
    decreases |grants|
  {
    if |grants| > 1 {
      LastDecisionHolds(Granted(o, grants[0]), grants[1..]);
      assert grants[1..][..|grants| - 2] == grants[..|grants| - 1][1..];
    } else if |grants| == 1 {
      assert grants[..0] == [] && grants[1..] == [];
    }
  }

  /** Each grant only lets more statements through. */
  ghost predicate OnlyUnblock<Db(!new)>(engine: Engine<Db>, o: Options, grants: seq<Grant>)
    decreases |grants|
  {
    grants == [] || (OnlyBlocks(engine, o, Granted(o, grants[0])) && OnlyUnblock(engine, Granted(o, grants[0]), grants[1..]))
  }

  lemma {:induction false} AllOnlyBlock<Db(!new)>(engine: Engine<Db>, o: Options, grants: seq<Grant>)
    requires OnlyUnblock(engine, o, grants)
    ensures OnlyBlocks(engine, o, GrantedAll(o, grants))
    decreases |grants|
  {
    if grants != [] { AllOnlyBlock(engine, Granted(o, grants[0]), grants[1..]); }
  }

  /**
   However often a run is blocked and resumed, it ends in the same database, results and stop as one run under
   everything that was granted. Grants left over when the run gets through make no difference.
   */
  lemma {:induction false} ResumesEqualUninterrupted<Db(!new)>(engine: Engine<Db>, o: Options, grants: seq<Grant>,
      stmts: seq<string>, aborts: nat -> bool, i: nat, db: Db, results: seq<ResultSet>)
    requires i <= |stmts| && OnlyUnblock(engine, o, grants)
    ensures ResumeAll(engine, o, grants, stmts, aborts, i, db, results)
      == RunFrom(engine, GrantedAll(o, grants), stmts, aborts, i, db, results)
    decreases |grants|
  {
    AllOnlyBlock(engine, o, grants);
    ResumeEqualsUninterrupted(engine, o, GrantedAll(o, grants), stmts, aborts, i, db, results);
    var first := RunFrom(engine, o, stmts, aborts, i, db, results);
    if grants != [] && first.stop.BlockedAt? {
      ResumesEqualUninterrupted(engine, Granted(o, grants[0]), grants[1..], stmts, aborts, first.stop.index, first.db, first.results);
    }
  }

  /** Without that condition resuming can differ: here the blocked options already changed what earlier statements did. */
  lemma ResumeCanDiffer(restricted: Options, permitted: Options)
    requires restricted.allowWrite != permitted.allowWrite
    ensures exists engine: Engine<int>, stmts: seq<string>, aborts: nat -> bool ::
      var first := RunFrom(engine, restricted, stmts, aborts, 0, 0, []);
      first.stop.BlockedAt? && first.stop.index <= |stmts|
      && RunFrom(engine, permitted, stmts, aborts, first.stop.index, first.db, first.results).db
         != RunFrom(engine, permitted, stmts, aborts, 0, 0, []).db
  {
    var engine: Engine<int> := (db: int, o: Options, s: string) =>
      if s == "a" then Ran(if o.allowWrite == permitted.allowWrite then 2 else 1, 0, None)
      else if o.allowWrite == permitted.allowWrite then Ran(db, 0, None) else Blocked(Policy("", ""));
    var stmts := ["a", "b"];
    var aborts: nat -> bool := (k: nat) => false;
    var first := RunFrom(engine, restricted, stmts, aborts, 0, 0, []);
    assert first == RunFrom(engine, restricted, stmts, aborts, 1, 1, [ResultSet("a", 0, None)]);
    assert RunFrom(engine, permitted, stmts, aborts, 0, 0, []) == RunFrom(engine, permitted, stmts, aborts, 1, 2, [ResultSet("a", 0, None)]);
    assert RunFrom(engine, permitted, stmts, aborts, 1, 2, [ResultSet("a", 0, None)]).db == 2;
    assert RunFrom(engine, permitted, stmts, aborts, 1, 1, [ResultSet("a", 0, None)]).db == 1;
  }
}

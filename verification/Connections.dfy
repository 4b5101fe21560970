/**
 The connection service (engine/internal/application/connection_service.go): a profile repository
 and a secret store kept in step. Both stores are maps, and every call of one may also fail, as the
 flags in Faults say. As the shipped repository does, an update keeps the creation time and stamps
 the profile with a clock reading of its own (engine/internal/adapters/sqlite/sqlite_profile_repository.go).
 Whether a profile is well-formed is left to an unknown predicate.
 */
module Connections {
  import opened Text

  /** settings stands for every field the service passes through unread; time 0 is Go's zero time. */
  datatype Profile = Profile(id: string, settings: string, secretRef: string, createdAt: nat, updatedAt: nat)
  datatype Stores = Stores(profiles: map<string, Profile>, secrets: map<string, string>)
  /**
   store: reading, setting or deleting a secret fails; repo: the repository write fails; cleanup:
   deleting the secret of a failed create fails.
   */
  datatype Faults = Faults(store: bool, repo: bool, cleanup: bool)
  /** The clock readings of one operation: the service's own, then the one behind the stored revision. */
  datatype Times = Times(now: nat, stamp: nat)
  datatype Result<T> = Ok(value: T) | Err
  datatype Namespace = AgentKey | OAuthToken

  const NO_FAULT := Faults(false, false, false)

  function SecretRef(id: string): string { "secret-" + id }

  function KeyRef(ns: Namespace, provider: string): string {
    match ns
    case AgentKey => "agent-api-key:" + provider
    case OAuthToken => "agent-oauth:" + provider
  }

  // ------------------------------------------------------------------ operations

  /** The repository's update of an existing profile. */
  function Stamped(profiles: map<string, Profile>, p: Profile, stamp: nat): map<string, Profile>
    requires p.id in profiles
  {
    profiles[p.id := p.(createdAt := profiles[p.id].createdAt, updatedAt := stamp)]
  }

  function Create(valid: Profile -> bool, s: Stores, p: Profile, password: string, freshId: string, t: Times, f: Faults)
    : (Stores, Result<Profile>)
  {
    var id := if p.id == "" then freshId else p.id;
    if !valid(p.(id := id)) || f.store then (s, Err)
    else
      var p' := p.(id := id, secretRef := SecretRef(id), createdAt := t.now, updatedAt := t.stamp);
      if f.repo || id in s.profiles then
        (s.(secrets := if f.cleanup then s.secrets[SecretRef(id) := password] else s.secrets - {SecretRef(id)}), Err)
      else (Stores(s.profiles[id := p'], s.secrets[SecretRef(id) := password]), Ok(p'))
  }

  function Get(s: Stores, id: string, t: Times, f: Faults): (Stores, Result<(Profile, string)>) {
    if id !in s.profiles then (s, Err)
    else
      var p := s.profiles[id];
      var ref := if p.secretRef == "" then SecretRef(p.id) else p.secretRef;
      if f.store then (s, Err)
      else if ref !in s.secrets then (s, Ok((p, "")))
      else if p.secretRef == "" then
        if f.repo || p.id !in s.profiles then (s, Err)
        else
          (s.(profiles := Stamped(s.profiles, p.(secretRef := ref), t.stamp)),
           Ok((p.(secretRef := ref, updatedAt := t.stamp), s.secrets[ref])))
      else (s, Ok((p, s.secrets[ref])))
  }

  function Update(valid: Profile -> bool, s: Stores, p: Profile, password: string, t: Times, f: Faults): (Stores, Result<Profile>) {
    if !valid(p) || p.id !in s.profiles then (s, Err)
    else
      var existing := s.profiles[p.id];
      if p.updatedAt != 0 && p.updatedAt != existing.updatedAt then (s, Err)
      else
        var ref := if existing.secretRef == "" then SecretRef(p.id) else existing.secretRef;
        if password != "" && f.store then (s, Err)
        else
          var secrets := if password != "" then s.secrets[ref := password] else s.secrets;
          if f.repo then (s.(secrets := secrets), Err)
          else (Stores(Stamped(s.profiles, p.(secretRef := ref), t.stamp), secrets), Ok(p.(secretRef := ref, updatedAt := t.stamp)))
  }

  function Delete(s: Stores, id: string, f: Faults): (Stores, Result<()>) {
    if id !in s.profiles then (s, Err)
    else
      var secrets := if f.store then s.secrets else s.secrets - {s.profiles[id].secretRef};
      if f.repo then (s.(secrets := secrets), Err) else (Stores(s.profiles - {id}, secrets), Ok(()))
  }

  /** SetMCPConnectionSettings and SetMCPAccessScope: both rewrite pass-through fields and nothing else. */
  function SetSettings(s: Stores, id: string, settings: string, t: Times, f: Faults): (Stores, Result<()>) {
    if id !in s.profiles || f.repo || s.profiles[id].id !in s.profiles then (s, Err)
    else (s.(profiles := Stamped(s.profiles, s.profiles[id].(settings := settings), t.stamp)), Ok(()))
  }

  function SetKey(s: Stores, ns: Namespace, provider: string, key: string, f: Faults): (Stores, Result<()>) {
    if provider == "" || f.store then (s, Err) else (s.(secrets := s.secrets[KeyRef(ns, provider) := key]), Ok(()))
  }

  function ClearKey(s: Stores, ns: Namespace, provider: string, f: Faults): (Stores, Result<()>) {
    if f.store || KeyRef(ns, provider) !in s.secrets then (s, Err)
    else (s.(secrets := s.secrets - {KeyRef(ns, provider)}), Ok(()))
  }

  // --------------------------------------------------------------------- the class

  class ConnectionService {
    const valid: Profile -> bool
    var repo: map<string, Profile>
    var store: map<string, string>

    ghost function View(): Stores
      reads this
    {
      Stores(repo, store)
    }

    constructor (valid: Profile -> bool)
      ensures View() == Stores(map[], map[]) && this.valid == valid
    {
      this.valid := valid;
      repo, store := map[], map[];
    }

    method CreateProfile(p: Profile, password: string, freshId: string, t: Times, f: Faults) returns (r: Result<Profile>)
      modifies this
      ensures (View(), r) == Create(valid, old(View()), p, password, freshId, t, f)
    {
      var q := p;
      if q.id == "" { q := q.(id := freshId); }
      if !valid(q) { return Err; }
      q := q.(secretRef := SecretRef(q.id), createdAt := t.now, updatedAt := t.stamp);
      if f.store { return Err; }
      store := store[q.secretRef := password];
      if f.repo || q.id in repo {
        if !f.cleanup {
          store := store - {q.secretRef};
          assert store == old(store) - {q.secretRef};
        }
        return Err;
      }
      repo := repo[q.id := q];
      return Ok(q);
    }

    /** The repository's Update: it stamps the profile it is given and keeps the stored creation time. */
    method WriteBack(p: Profile, stamp: nat) returns (q: Profile)
      requires p.id in repo
      modifies this`repo
      ensures repo == Stamped(old(repo), p, stamp) && q == p.(updatedAt := stamp)
    {
      q := p.(updatedAt := stamp);
      repo := repo[q.id := q.(createdAt := repo[q.id].createdAt)];
    }

    method GetProfile(id: string, t: Times, f: Faults) returns (r: Result<(Profile, string)>)
      modifies this
      ensures (View(), r) == Get(old(View()), id, t, f)
    {
      if id !in repo { return Err; }
      var p := repo[id];
      var secretRef := p.secretRef;
      if secretRef == "" { secretRef := SecretRef(p.id); }
      if f.store { return Err; }
      if secretRef !in store { return Ok((p, "")); }
      var password := store[secretRef];
      if p.secretRef == "" {
        p := p.(secretRef := secretRef);
        if f.repo || p.id !in repo { return Err; }
        p := WriteBack(p, t.stamp);
      }
      return Ok((p, password));
    }

    method UpdateProfile(p: Profile, password: string, t: Times, f: Faults) returns (r: Result<Profile>)
      modifies this
      ensures (View(), r) == Update(valid, old(View()), p, password, t, f)
    {
      if !valid(p) || p.id !in repo { return Err; }
      var existing := repo[p.id];
      if p.updatedAt != 0 && p.updatedAt != existing.updatedAt { return Err; }
      var q := p.(secretRef := existing.secretRef);
      if q.secretRef == "" { q := q.(secretRef := SecretRef(q.id)); }
      q := q.(updatedAt := t.now);
      if password != "" {
        if f.store { return Err; }
        store := store[q.secretRef := password];
      }
      if f.repo { return Err; }
      q := WriteBack(q, t.stamp);
      return Ok(q);
    }

    method DeleteProfile(id: string, f: Faults) returns (r: Result<()>)
      modifies this
      ensures (View(), r) == Delete(old(View()), id, f)
    {
      if id !in repo { return Err; }
      var p := repo[id];
      if !f.store { store := store - {p.secretRef}; }
      if f.repo { return Err; }
      repo := repo - {id};
      return Ok(());
    }

    method ChangeSettings(id: string, settings: string, t: Times, f: Faults) returns (r: Result<()>)
      modifies this
      ensures (View(), r) == SetSettings(old(View()), id, settings, t, f)
    {
      if id !in repo { return Err; }
      var p := repo[id].(settings := settings);
      if f.repo || p.id !in repo { return Err; }
      p := WriteBack(p, t.stamp);
      return Ok(());
    }

    /** SetAgentKey and SetOAuthToken, told apart by their namespace. */
    method StoreKey(ns: Namespace, provider: string, key: string, f: Faults) returns (r: Result<()>)
      modifies this
      ensures (View(), r) == SetKey(old(View()), ns, provider, key, f)
    {
      if provider == "" { return Err; }
      if f.store { return Err; }
      store := store[KeyRef(ns, provider) := key];
      return Ok(());
    }

    /** ClearAgentKey and ClearOAuthToken. */
    method DropKey(ns: Namespace, provider: string, f: Faults) returns (r: Result<()>)
      modifies this
      ensures (View(), r) == ClearKey(old(View()), ns, provider, f)
    {
      if f.store || KeyRef(ns, provider) !in store { return Err; }
      store := store - {KeyRef(ns, provider)};
      return Ok(());
    }
  }

  // ---------------------------------------------------------------- the invariant

  /** Each profile is filed under its id, with an empty (legacy) reference or its own. */
  ghost predicate Inv(s: Stores) {
    forall id | id in s.profiles :: s.profiles[id].id == id && s.profiles[id].secretRef in ["", SecretRef(id)]
  }

  /** The password a profile id leads to. */
  function Password(s: Stores, id: string): Option<string> {
    if SecretRef(id) in s.secrets then Some(s.secrets[SecretRef(id)]) else None
  }

  function StoredKey(s: Stores, ns: Namespace, provider: string): Option<string> {
    if KeyRef(ns, provider) in s.secrets then Some(s.secrets[KeyRef(ns, provider)]) else None
  }

  lemma PrefixDecides(prefix: string, a: string, b: string)
    ensures prefix + a == prefix + b <==> a == b
  {
    if prefix + a == prefix + b {
      assert a == (prefix + a)[|prefix|..] && b == (prefix + b)[|prefix|..];
    }
  }

  /** References of different owners differ. */
  lemma RefsDiffer(a: string, b: string, ns: Namespace, ms: Namespace, provider: string, other: string)
    ensures SecretRef(a) == SecretRef(b) <==> a == b
    ensures KeyRef(ns, provider) == KeyRef(ms, other) <==> ns == ms && provider == other
    ensures SecretRef(a) != KeyRef(ns, provider) && SecretRef(a) != ""
  {
    PrefixDecides("secret-", a, b);
    PrefixDecides(if ns == AgentKey then "agent-api-key:" else "agent-oauth:", provider, other);
    assert SecretRef(a)[0] == 's' && KeyRef(ns, provider)[0] == 'a';
    assert KeyRef(ns, provider)[6] == (if ns == AgentKey then 'a' else 'o');
    assert KeyRef(ms, other)[6] == (if ms == AgentKey then 'a' else 'o');
  }

  datatype Op =
    | CreateOp(p: Profile, password: string, freshId: string, t: Times, f: Faults)
    | GetOp(id: string, t: Times, f: Faults)
    | UpdateOp(p: Profile, password: string, t: Times, f: Faults)
    | DeleteOp(id: string, f: Faults)
    | SetSettingsOp(id: string, settings: string, t: Times, f: Faults)
    | SetKeyOp(ns: Namespace, provider: string, key: string, f: Faults)
    | ClearKeyOp(ns: Namespace, provider: string, f: Faults)

  function Step(valid: Profile -> bool, s: Stores, op: Op): Stores {
    match op
    case CreateOp(p, password, freshId, t, f) => Create(valid, s, p, password, freshId, t, f).0
    case GetOp(id, t, f) => Get(s, id, t, f).0
    case UpdateOp(p, password, t, f) => Update(valid, s, p, password, t, f).0
    case DeleteOp(id, f) => Delete(s, id, f).0
    case SetSettingsOp(id, settings, t, f) => SetSettings(s, id, settings, t, f).0
    case SetKeyOp(ns, provider, key, f) => SetKey(s, ns, provider, key, f).0
    case ClearKeyOp(ns, provider, f) => ClearKey(s, ns, provider, f).0
  }

  /** The profile an operation is about, if any. */
  function Subject(op: Op): Option<string> {
    match op
    case CreateOp(p, _, freshId, _, _) => Some(if p.id == "" then freshId else p.id)
    case GetOp(id, _, _) => Some(id)
    case UpdateOp(p, _, _, _) => Some(p.id)
    case DeleteOp(id, _) => Some(id)
    case SetSettingsOp(id, _, _, _) => Some(id)
    case _ => None
  }

  predicate IsKeyOp(op: Op, ns: Namespace, provider: string) {
    (op.SetKeyOp? || op.ClearKeyOp?) && op.ns == ns && op.provider == provider
  }

  lemma StepKeepsInv(valid: Profile -> bool, s: Stores, op: Op)
    requires Inv(s)
    ensures Inv(Step(valid, s, op))
  {
  }

  /** Nothing about this profile, nor its password, differs. */
  ghost predicate SameProfile(s: Stores, s': Stores, id: string) {
    && Password(s', id) == Password(s, id)
    && (id in s'.profiles <==> id in s.profiles)
    && (id in s.profiles ==> s'.profiles[id] == s.profiles[id])
  }

  ghost predicate SameBut<V>(a: map<string, V>, b: map<string, V>, keys: set<string>) {
    forall k | k !in keys :: (k in a <==> k in b) && (k in a ==> a[k] == b[k])
  }

  /** A profile operation writes only its profile's entry and its secret (or the empty reference). */
  lemma ProfileOpTouches(valid: Profile -> bool, s: Stores, op: Op)
    requires Inv(s) && Subject(op).Some?
    ensures var (s', id) := (Step(valid, s, op), Subject(op).value);
      SameBut(s.profiles, s'.profiles, {id}) && SameBut(s.secrets, s'.secrets, {"", SecretRef(id)})
  {
  }

  /** A key operation writes only that key. */
  lemma KeyOpTouches(valid: Profile -> bool, s: Stores, op: Op)
    requires op.SetKeyOp? || op.ClearKeyOp?
    ensures var s' := Step(valid, s, op); s'.profiles == s.profiles && SameBut(s.secrets, s'.secrets, {KeyRef(op.ns, op.provider)})
  {
  }

  /** An operation reaches only its own profile's entry and password, or its own provider's key. */
  lemma StepIsLocal(valid: Profile -> bool, s: Stores, op: Op, other: string, ns: Namespace, provider: string)
    requires Inv(s)
    ensures Subject(op) != Some(other) ==> SameProfile(s, Step(valid, s, op), other)
    ensures !IsKeyOp(op, ns, provider) ==> StoredKey(Step(valid, s, op), ns, provider) == StoredKey(s, ns, provider)
  {
    if Subject(op).Some? {
      ProfileOpTouches(valid, s, op);
      RefsDiffer(other, Subject(op).value, ns, ns, provider, provider);
      RefsDiffer(Subject(op).value, other, ns, ns, provider, provider);
    } else {
      KeyOpTouches(valid, s, op);
      RefsDiffer(other, other, op.ns, ns, op.provider, provider);
    }
  }

  // ------------------------------------------------------------------------- runs

  function RunOps(valid: Profile -> bool, s: Stores, ops: seq<Op>): Stores
    decreases |ops|
  {
    if ops == [] then s else RunOps(valid, Step(valid, s, ops[0]), ops[1..])
  }

  /** Over every run the references stay right, and untouched profiles and keys stay as they were. */
  lemma {:induction false} RunsAreLocal(valid: Profile -> bool, s: Stores, ops: seq<Op>, other: string,
                                           ns: Namespace, provider: string)
    requires Inv(s)
    ensures Inv(RunOps(valid, s, ops))
    ensures (forall i :: 0 <= i < |ops| ==> Subject(ops[i]) != Some(other)) ==> SameProfile(s, RunOps(valid, s, ops), other)
    ensures (forall i :: 0 <= i < |ops| ==> !IsKeyOp(ops[i], ns, provider)) ==>
      StoredKey(RunOps(valid, s, ops), ns, provider) == StoredKey(s, ns, provider)
    decreases |ops|
  {
    if ops != [] {
      StepKeepsInv(valid, s, ops[0]);
      StepIsLocal(valid, s, ops[0], other, ns, provider);
      RunsAreLocal(valid, Step(valid, s, ops[0]), ops[1..], other, ns, provider);
      assert forall i :: 0 <= i < |ops[1..]| ==> ops[1..][i] == ops[i + 1];
    }
  }

  // -------------------------------------------------------------------- passwords

  /**
   Get answers the password the profile leads to, "" if there is none. It writes no secret, and no
   profile but a legacy one whose password it found: that one gets its reference and a new revision.
   */
  lemma GetAnswersPassword(s: Stores, id: string, t: Times, f: Faults)
    requires Inv(s) && id in s.profiles
    ensures var (s', r) := Get(s, id, t, f);
      && s'.secrets == s.secrets
      && (r.Ok? ==> r.value.1 == if Password(s, id).Some? then Password(s, id).value else "")
      && (r.Ok? ==> r.value.0 == s'.profiles[id])
      && s'.profiles ==
          if r.Ok? && Password(s, id).Some? && s.profiles[id].secretRef == ""
          then s.profiles[id := s.profiles[id].(secretRef := SecretRef(id), updatedAt := t.stamp)]
          else s.profiles
  {
    RefsDiffer(id, id, AgentKey, AgentKey, "", "");
  }

  /** Leaving the password blank keeps it; giving one sets it, so that the next Get answers it. */
  lemma UpdateKeepsOrSetsPassword(valid: Profile -> bool, s: Stores, p: Profile, password: string, t: Times, f: Faults, later: Times)
    requires Inv(s)
    ensures var (s', r) := Update(valid, s, p, password, t, f);
      && (password == "" ==> s'.secrets == s.secrets)
      && (r.Ok? && password != "" ==>
          && Password(s', p.id) == Some(password)
          && Get(s', p.id, later, NO_FAULT) == (s', Ok((s'.profiles[p.id], password))))
  {
    RefsDiffer(p.id, p.id, AgentKey, AgentKey, "", "");
  }

  lemma CreateThenGet(valid: Profile -> bool, s: Stores, p: Profile, password: string, freshId: string, t: Times, f: Faults, later: Times)
    ensures var (s', r) := Create(valid, s, p, password, freshId, t, f);
      r.Ok? ==> r.value.id in s'.profiles && Get(s', r.value.id, later, NO_FAULT) == (s', Ok((r.value, password)))
  {
    if p.id == "" { assert SecretRef(freshId) != ""; } else { assert SecretRef(p.id) != ""; }
  }

  /**
   A failed create is undone only if the clean-up works and the id had no password, or if the password
   left behind is the one that was there: the service deletes the secret it wrote, also when that
   overwrote the password of an existing profile with the same id.
   */
  lemma FailedCreateUndone(valid: Profile -> bool, s: Stores, p: Profile, password: string, freshId: string, t: Times, f: Faults)
    requires var id := if p.id == "" then freshId else p.id;
      valid(p.(id := id)) && !f.store && (f.repo || id in s.profiles)
    ensures var id := if p.id == "" then freshId else p.id;
      var (s', r) := Create(valid, s, p, password, freshId, t, f);
      && r == Err && s'.profiles == s.profiles
      && Password(s', id) == (if f.cleanup then Some(password) else None)
      && (s' == s <==> Password(s, id) == if f.cleanup then Some(password) else None)
  {
    var id := if p.id == "" then freshId else p.id;
    var s' := Create(valid, s, p, password, freshId, t, f).0;
    if Password(s, id) == (if f.cleanup then Some(password) else None) { assert s'.secrets == s.secrets; }
  }

  /** An update whose repository write fails has already replaced the password. */
  lemma FailedUpdateKeepsNewPassword(valid: Profile -> bool, s: Stores, p: Profile, password: string, t: Times)
    requires Inv(s) && valid(p) && p.id in s.profiles && (p.updatedAt == 0 || p.updatedAt == s.profiles[p.id].updatedAt)
    ensures var (s', r) := Update(valid, s, p, password, t, Faults(false, true, false));
      r == Err && s'.profiles == s.profiles && (s' == s <==> password == "" || Password(s, p.id) == Some(password))
  {
    var s' := Update(valid, s, p, password, t, Faults(false, true, false)).0;
    assert password != "" ==> Password(s', p.id) == Some(password);
  }

  /** Deleting a profile removes its password, except for a legacy profile whose reference was never repaired. */
  lemma DeleteRemovesPassword(s: Stores, id: string, f: Faults)
    requires Inv(s) && id in s.profiles && !f.repo && !f.store
    ensures var (s', r) := Delete(s, id, f);
      r.Ok? && id !in s'.profiles && (Password(s', id) == None <==> s.profiles[id].secretRef != "" || Password(s, id) == None)
  {
    RefsDiffer(id, id, AgentKey, AgentKey, "", "");
  }

  // ------------------------------------------------------------- settings and keys

  /** The operations that may give a profile other settings, or take it away. */
  predicate MayChangeSettings(op: Op, id: string) {
    (op.UpdateOp? && op.p.id == id) || ((op.SetSettingsOp? || op.DeleteOp?) && op.id == id)
  }

  ghost predicate HasSettings(s: Stores, id: string, settings: string) {
    id in s.profiles && s.profiles[id].settings == settings
  }

  /** Creating, reading and repairing keep the settings of a profile that exists. */
  lemma StepKeepsSettings(valid: Profile -> bool, s: Stores, op: Op, id: string, settings: string)
    requires Inv(s) && HasSettings(s, id, settings) && !MayChangeSettings(op, id)
    ensures HasSettings(Step(valid, s, op), id, settings)
  {
  }

  lemma {:induction false} RunKeepsSettings(valid: Profile -> bool, s: Stores, ops: seq<Op>, id: string, settings: string)
    requires Inv(s) && HasSettings(s, id, settings) && forall i | 0 <= i < |ops| :: !MayChangeSettings(ops[i], id)
    ensures Inv(RunOps(valid, s, ops)) && HasSettings(RunOps(valid, s, ops), id, settings)
    decreases |ops|
  {
    if ops != [] {
      StepKeepsInv(valid, s, ops[0]);
      StepKeepsSettings(valid, s, ops[0], id, settings);
      assert forall i :: 0 <= i < |ops[1..]| ==> ops[1..][i] == ops[i + 1];
      RunKeepsSettings(valid, Step(valid, s, ops[0]), ops[1..], id, settings);
    }
  }

  /** New settings are what a read answers, until an update, another change or a deletion of the profile. */
  lemma SettingsAreReadBack(valid: Profile -> bool, s: Stores, id: string, settings: string, t: Times, f: Faults,
                            ops: seq<Op>, later: Times)
    requires Inv(s) && forall i | 0 <= i < |ops| :: !MayChangeSettings(ops[i], id)
    ensures var (s', r) := SetSettings(s, id, settings, t, f);
      && (r.Ok? <==> id in s.profiles && !f.repo)
      && (r.Ok? ==> var read := Get(RunOps(valid, s', ops), id, later, NO_FAULT).1; read.Ok? && read.value.0.settings == settings)
  {
    var (s', r) := SetSettings(s, id, settings, t, f);
    if r.Ok? {
      StepKeepsInv(valid, s, SetSettingsOp(id, settings, t, f));
      RunKeepsSettings(valid, s', ops, id, settings);
      GetAnswersPassword(RunOps(valid, s', ops), id, later, NO_FAULT);
    }
  }

  /** So are those of a successful update. */
  lemma UpdateIsReadBack(valid: Profile -> bool, s: Stores, p: Profile, password: string, t: Times, f: Faults,
                         ops: seq<Op>, later: Times)
    requires Inv(s) && forall i | 0 <= i < |ops| :: !MayChangeSettings(ops[i], p.id)
    ensures var (s', r) := Update(valid, s, p, password, t, f);
      r.Ok? ==> var read := Get(RunOps(valid, s', ops), p.id, later, NO_FAULT).1; read.Ok? && read.value.0.settings == p.settings
  {
    var (s', r) := Update(valid, s, p, password, t, f);
    if r.Ok? {
      StepKeepsInv(valid, s, UpdateOp(p, password, t, f));
      RunKeepsSettings(valid, s', ops, p.id, p.settings);
      GetAnswersPassword(RunOps(valid, s', ops), p.id, later, NO_FAULT);
    }
  }

  /** Where the key of a provider is kept. */
  function KeyPlace(ns: Namespace, provider: string): string {
    if ns.AgentKey? then "agent-api-key:" + provider else "agent-oauth:" + provider
  }

  /** A key that is set is what its place in the secret store holds, and one that is cleared is gone, until it is set or cleared again. */
  lemma KeyIsReadBack(valid: Profile -> bool, s: Stores, ns: Namespace, provider: string, key: string, f: Faults, ops: seq<Op>)
    requires Inv(s) && forall i | 0 <= i < |ops| :: !IsKeyOp(ops[i], ns, provider)
    ensures var (s', r) := SetKey(s, ns, provider, key, f);
      (r.Ok? <==> provider != "" && !f.store) && (r.Ok? ==> Lookup(RunOps(valid, s', ops).secrets, KeyPlace(ns, provider)) == Some(key))
    ensures var (s', r) := ClearKey(s, ns, provider, f);
      (r.Ok? <==> KeyPlace(ns, provider) in s.secrets && !f.store)
      && (r.Ok? ==> Lookup(RunOps(valid, s', ops).secrets, KeyPlace(ns, provider)) == None)
  {
    assert KeyPlace(ns, provider) == KeyRef(ns, provider);
    StepKeepsInv(valid, s, SetKeyOp(ns, provider, key, f));
    StepKeepsInv(valid, s, ClearKeyOp(ns, provider, f));
    RunsAreLocal(valid, SetKey(s, ns, provider, key, f).0, ops, "", ns, provider);
    RunsAreLocal(valid, ClearKey(s, ns, provider, f).0, ops, "", ns, provider);
  }

  function Lookup(m: map<string, string>, key: string): Option<string> {
    if key in m then Some(m[key]) else None
  }

  // -------------------------------------------------------------------- revisions

  /** The revision an operation may stamp. */
  function Stamp(op: Op): Option<nat> {
    match op
    case CreateOp(_, _, _, t, _) => Some(t.stamp)
    case GetOp(_, t, _) => Some(t.stamp)
    case UpdateOp(_, _, t, _) => Some(t.stamp)
    case SetSettingsOp(_, _, t, _) => Some(t.stamp)
    case _ => None
  }

  /** The stamps strictly increase from clock on. */
  ghost predicate Increasing(clock: nat, ops: seq<Op>)
    decreases |ops|
  {
    ops == [] || (match Stamp(ops[0])
                  case None => Increasing(clock, ops[1..])
                  case Some(t) => clock < t && Increasing(t, ops[1..]))
  }

  /** If the profile exists, it was last written after time r. */
  ghost predicate NewerThan(s: Stores, id: string, r: nat) {
    id in s.profiles ==> s.profiles[id].updatedAt > r
  }

  /** A repository write of this profile goes through: its creation, an update, a settings change, or Get's repair. */
  predicate Writes(valid: Profile -> bool, s: Stores, op: Op, id: string) {
    Subject(op) == Some(id) &&
    match op
    case CreateOp(p, password, freshId, t, f) => Create(valid, s, p, password, freshId, t, f).1.Ok?
    case GetOp(_, t, f) => Get(s, id, t, f).1.Ok? && s.profiles[id].secretRef == "" && Password(s, id).Some?
    case UpdateOp(p, password, t, f) => Update(valid, s, p, password, t, f).1.Ok?
    case SetSettingsOp(_, settings, t, f) => SetSettings(s, id, settings, t, f).1.Ok?
    case _ => false
  }

  predicate SomeWrite(valid: Profile -> bool, s: Stores, ops: seq<Op>, id: string)
    decreases |ops|
  {
    ops != [] && (Writes(valid, s, ops[0], id) || SomeWrite(valid, Step(valid, s, ops[0]), ops[1..], id))
  }

  /** A write gives the profile its stamp as revision; any other step leaves the revision alone. */
  lemma StepRevision(valid: Profile -> bool, s: Stores, op: Op, id: string)
    requires Inv(s)
    ensures Writes(valid, s, op, id) ==>
      id in Step(valid, s, op).profiles && Stamp(op) == Some(Step(valid, s, op).profiles[id].updatedAt)
    ensures !Writes(valid, s, op, id) && id in Step(valid, s, op).profiles ==>
      id in s.profiles && Step(valid, s, op).profiles[id].updatedAt == s.profiles[id].updatedAt
  {
  }

  lemma {:induction false} StaysNewer(valid: Profile -> bool, s: Stores, ops: seq<Op>, id: string, r: nat, clock: nat)
    requires Inv(s) && r <= clock && Increasing(clock, ops) && NewerThan(s, id, r)
    ensures NewerThan(RunOps(valid, s, ops), id, r)
    decreases |ops|
  {
    if ops != [] {
      StepKeepsInv(valid, s, ops[0]);
      StepRevision(valid, s, ops[0], id);
      StaysNewer(valid, Step(valid, s, ops[0]), ops[1..], id, r, if Stamp(ops[0]).Some? then Stamp(ops[0]).value else clock);
    }
  }

  lemma {:induction false} WriteMakesNewer(valid: Profile -> bool, s: Stores, ops: seq<Op>, id: string, r: nat, clock: nat)
    requires Inv(s) && r <= clock && Increasing(clock, ops) && SomeWrite(valid, s, ops, id)
    ensures NewerThan(RunOps(valid, s, ops), id, r)
    decreases |ops|
  {
    StepKeepsInv(valid, s, ops[0]);
    StepRevision(valid, s, ops[0], id);
    var clock' := if Stamp(ops[0]).Some? then Stamp(ops[0]).value else clock;
    if Writes(valid, s, ops[0], id) {
      StaysNewer(valid, Step(valid, s, ops[0]), ops[1..], id, r, clock');
    } else {
      WriteMakesNewer(valid, Step(valid, s, ops[0]), ops[1..], id, r, clock');
    }
  }

  /** Without a repository write of the id its revision stays, while it exists at all. */
  lemma {:induction false} NoWriteKeepsRevision(valid: Profile -> bool, s: Stores, ops: seq<Op>, id: string, r: nat)
    requires Inv(s) && !SomeWrite(valid, s, ops, id)
    requires id in s.profiles ==> s.profiles[id].updatedAt == r
    ensures id in RunOps(valid, s, ops).profiles ==> RunOps(valid, s, ops).profiles[id].updatedAt == r
    decreases |ops|
  {
    if ops != [] {
      StepKeepsInv(valid, s, ops[0]);
      StepRevision(valid, s, ops[0], id);
      NoWriteKeepsRevision(valid, Step(valid, s, ops[0]), ops[1..], id, r);
    }
  }

  /**
   No lost update: with increasing stamps, an update that carries the revision it was loaded with is
   accepted exactly if the profile still exists and no repository write of it went through in between.
   */
  lemma RevisionGuardsUpdate(valid: Profile -> bool, s: Stores, ops: seq<Op>, clock: nat, p: Profile, password: string, t: Times)
    requires Inv(s) && p.id in s.profiles && p.updatedAt == s.profiles[p.id].updatedAt
    requires 0 < p.updatedAt <= clock && Increasing(clock, ops) && valid(p)
    ensures var s' := RunOps(valid, s, ops);
      Update(valid, s', p, password, t, NO_FAULT).1.Ok?
      <==> p.id in s'.profiles && !SomeWrite(valid, s, ops, p.id)
  {
    if SomeWrite(valid, s, ops, p.id) {
      WriteMakesNewer(valid, s, ops, p.id, p.updatedAt, clock);
    } else {
      NoWriteKeepsRevision(valid, s, ops, p.id, p.updatedAt);
    }
  }

  /** In particular a changed access setting is never overwritten by an update loaded before it. */
  lemma SettingsChangeRefusesUpdate(valid: Profile -> bool, s: Stores, p: Profile, settings: string, t: Times,
                                    before: seq<Op>, after: seq<Op>, password: string, later: Times)
    requires Inv(s) && p.id in s.profiles && p.updatedAt == s.profiles[p.id].updatedAt && p.updatedAt > 0 && valid(p)
    requires Increasing(p.updatedAt, before + [SetSettingsOp(p.id, settings, t, NO_FAULT)] + after)
    requires p.id in RunOps(valid, s, before).profiles
    ensures var s' := RunOps(valid, s, before + [SetSettingsOp(p.id, settings, t, NO_FAULT)] + after);
      Update(valid, s', p, password, later, NO_FAULT) == (s', Err)
  {
    var op := SetSettingsOp(p.id, settings, t, NO_FAULT);
    RunsAreLocal(valid, s, before, p.id, AgentKey, "");
    WriteInTheMiddle(valid, s, before, op, after, p.id);
    RevisionGuardsUpdate(valid, s, before + [op] + after, p.updatedAt, p, password, later);
  }

  lemma {:induction false} WriteInTheMiddle(valid: Profile -> bool, s: Stores, before: seq<Op>, op: Op, after: seq<Op>, id: string)
    requires Writes(valid, RunOps(valid, s, before), op, id)
    ensures SomeWrite(valid, s, before + [op] + after, id)
    decreases |before|
  {
    var ops := before + [op] + after;
    if before == [] {
      assert ops[0] == op;
    } else {
      assert ops[0] == before[0] && ops[1..] == before[1..] + [op] + after;
      WriteInTheMiddle(valid, Step(valid, s, before[0]), before[1..], op, after, id);
    }
  }

  /**
   Reading can move the revision too: Get repairs a legacy profile whose password is stored, and an
   update that carries a revision from before is then refused, while the one Get answers is accepted.
   */
  lemma RepairMovesRevision(valid: Profile -> bool, s: Stores, p: Profile, t: Times, later: Times)
    requires Inv(s) && p.id in s.profiles && valid(p) && 0 < p.updatedAt == s.profiles[p.id].updatedAt < t.stamp
    ensures var (s', r) := Get(s, p.id, t, NO_FAULT);
      && r.Ok?
      && (Update(valid, s', p, "", later, NO_FAULT).1.Ok? <==> s.profiles[p.id].secretRef != "" || Password(s, p.id) == None)
      && (valid(r.value.0) ==> Update(valid, s', r.value.0, "", later, NO_FAULT).1.Ok?)
  {
    GetAnswersPassword(s, p.id, t, NO_FAULT);
  }
}

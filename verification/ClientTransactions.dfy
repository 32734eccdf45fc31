/**
 * Transactions over the configuration files, the secrets and the runtime built from them. Every fault is a
 * parameter; a runtime is identified with the files and secrets it was built from.
 */
module ClientTransactions {
  import opened ConfigStore

  datatype Built = Built(files: Files, secrets: map<string, string>)

  /** `stale` is set when the last attempt to rebuild the runtime failed. */
  datatype State = State(files: Files, secrets: map<string, string>, runtime: Built, stale: bool)

  datatype Outcome = Done | Unchanged | RolledBack | HalfDone | RollbackBroken | StatusUnknown

  /** What a mutation of one resource file does. */
  datatype Mutation = PutFile(path: Path, data: string, requireExisting: bool) | DeleteFile(path: Path)

  datatype Faults = Faults(
    refused: bool,
    unreadable: set<Path>,
    lookupFails: bool,
    store: PutFaults,
    secret: WriteFault,
    reloadFails: bool,
    stuck: set<Path>,
    secretRollback: WriteFault,
    secondReloadFails: bool,
    statusFails: bool
  )

  /** The running application serves the configuration that is stored. */
  ghost predicate InSync(s: State) {
    s.runtime == Built(s.files, s.secrets)
  }

  /** The stored configuration is valid and is the one running. */
  ghost predicate Running(s: State, load: Files -> bool) {
    InSync(s) && load(s.files) && !s.stale
  }

  function RestoredTo(now: State, backup: Files, secrets: map<string, string>): State {
    now.(files := Overlay(now.files, backup), secrets := secrets)
  }

  function Mutate(files: Files, load: Files -> bool, m: Mutation, f: PutFaults): (Files, PutResult) {
    match m
    case PutFile(path, data, requireExisting) => PutSpec(files, load, path, data, requireExisting, f)
    case DeleteFile(path) => DeleteSpec(files, load, path, f)
  }

  function Reload(s: State, load: Files -> bool, fails: bool): State {
    if !load(s.files) || fails then s.(stale := true) else s.(runtime := Built(s.files, s.secrets), stale := false)
  }

  predicate Restorable(files: Files, backup: Files, stuck: set<Path>) {
    EditableIn(files).Keys - backup.Keys !! stuck && backup.Keys !! stuck
  }

  function Backed(s: State, f: Faults): bool {
    !f.refused && EditableIn(s.files).Keys !! f.unreadable
  }

  /** How a failed or rejected file mutation ends the transaction. */
  function Stopped(r: PutResult): Outcome {
    match r
    case HalfWritten => HalfDone
    case RollbackFailed => RollbackBroken
    case _ => Unchanged
  }

  /** A configuration change: mutate one file, rebuild the runtime, and restore the backup if that fails. */
  function MutateSpec(s: State, load: Files -> bool, m: Mutation, f: Faults): (State, Outcome) {
    if !Backed(s, f) then (s, Unchanged)
    else
      var (files, r) := Mutate(s.files, load, m, f.store);
      if r != Stored then (s.(files := files), Stopped(r))
      else
        var loaded := Reload(s.(files := files), load, f.reloadFails);
        if !loaded.stale then (loaded, Done)
        else RollbackSpec(s, loaded, load, f, false)
  }

  /** Restores the files and, where the transaction touched it, the secret; a broken rollback leaves any state. */
  function RollbackSpec(before: State, now: State, load: Files -> bool, f: Faults, secretToo: bool): (State, Outcome) {
    if !Restorable(now.files, EditableIn(before.files), f.stuck) ||
      (secretToo && f.secretRollback != Sound) then (now, RollbackBroken)
    else
      var restored := RestoredTo(now, EditableIn(before.files), if secretToo then before.secrets else now.secrets);
      (Reload(restored, load, f.secondReloadFails), RolledBack)
  }

  function ClientPath(id: string): Path {
    ["clients", id + ".json"]
  }

  /** An explicit empty password deletes the secret, a missing one keeps it. */
  function SecretWritten(secrets: map<string, string>, id: string, password: string, fault: WriteFault)
    : map<string, string> {
    if fault == Unwritten then secrets
    else if password == "" then (if fault == Sound then secrets - {id} else secrets)
    else secrets[id := password]
  }

  function SaveSpec(s: State, load: Files -> bool, id: string, data: string, password: string, keep: bool, f: Faults)
    : (State, Outcome) {
    if !Backed(s, f) || f.lookupFails then (s, Unchanged)
    else
      var (files, r) := PutSpec(s.files, load, ClientPath(id), data, false, f.store);
      if r != Stored then (s.(files := files), Stopped(r))
      else
        var written :=
          s.(files := files, secrets := if keep then s.secrets else SecretWritten(s.secrets, id, password, f.secret));
        if !keep && f.secret != Sound then RollbackSpec(s, written, load, f, true)
        else
          var loaded := Reload(written, load, f.reloadFails);
          if loaded.stale then RollbackSpec(s, loaded, load, f, true)
          else (loaded, if f.statusFails then StatusUnknown else Done)
  }

  function DeleteClientSpec(s: State, load: Files -> bool, id: string, f: Faults): (State, Outcome) {
    if !Backed(s, f) || f.lookupFails then (s, Unchanged)
    else
      var (files, r) := DeleteSpec(s.files, load, ClientPath(id), f.store);
      if r != Stored then (s.(files := files), Stopped(r))
      else if f.secret != Sound then
        if !Restorable(files, EditableIn(s.files), f.stuck) then (s.(files := files), RollbackBroken)
        else (s.(files := Overlay(files, EditableIn(s.files))), RolledBack)
      else
        var loaded := Reload(s.(files := files, secrets := s.secrets - {id}), load, f.reloadFails);
        if loaded.stale then RollbackSpec(s, loaded, load, f, true) else (loaded, Done)
  }

  // ---- all or nothing -----------------------------------------------------------------------------------------

  ghost predicate SameDisk(a: State, b: State) {
    a.files == b.files && a.secrets == b.secrets
  }

  /** A state that differs in one editable file is recovered by the backup. */
  lemma OverlayUndoes(before: Files, later: Files, p: Path)
    requires Editable(p) && later - {p} == before - {p}
    ensures Overlay(later, EditableIn(before)) == before
  {
    RestoreRecovers(before, later);
    forall q | !Editable(q) ensures (q in later <==> q in before) && (q in later ==> later[q] == before[q]) {
      assert q in later - {p} <==> q in later;
      assert q in before - {p} <==> q in before;
      assert q in later ==> (later - {p})[q] == later[q];
    }
    assert (map q | q in later && !Editable(q) :: later[q]) == (map q | q in before && !Editable(q) :: before[q]);
  }

  lemma RollbackRecovers(s: State, now: State, load: Files -> bool, f: Faults, secretToo: bool, p: Path)
    requires Editable(p) && now.files - {p} == s.files - {p}
    requires secretToo || now.secrets == s.secrets
    requires now.runtime == s.runtime
    ensures var (after, o) := RollbackSpec(s, now, load, f, secretToo);
            o == RolledBack ==> SameDisk(after, s) && (InSync(s) ==> InSync(after))
  {
    OverlayUndoes(s.files, now.files, p);
  }

  /** After a rollback whose rebuild succeeds, the configuration that was stored before is running. */
  lemma RollbackRuns(s: State, now: State, load: Files -> bool, f: Faults, secretToo: bool, p: Path)
    requires Editable(p) && now.files - {p} == s.files - {p}
    ensures var (after, o) := RollbackSpec(s, now, load, f, secretToo);
            o == RolledBack && load(s.files) && !f.secondReloadFails ==> Running(after, load)
  {
    hide Editable;
    hide Overlay;
    OverlayUndoes(s.files, now.files, p);
  }

  lemma PathIsEditable(id: string)
    ensures Editable(ClientPath(id))
  {
  }

  /**
   * A configuration change that reports an error leaves files, secrets and, if it was in sync, the runtime as they
   * were, unless a rollback failed too or its write was interrupted after the rename. Success means the new
   * configuration is stored, loadable and running.
   */
  lemma MutateAllOrNothing(s: State, load: Files -> bool, m: Mutation, f: Faults)
    requires Editable(m.path)
    ensures var (after, o) := MutateSpec(s, load, m, f);
            && (o == Done ==>
                 Running(after, load) && after.secrets == s.secrets && after.files == Committed(s.files, m))
            && (o == Unchanged ==> after == s)
            && (o == RolledBack ==> SameDisk(after, s) && (InSync(s) ==> InSync(after)))
            && (o == RolledBack && load(s.files) && !f.secondReloadFails ==> Running(after, load))
            && (o == HalfDone <==>
                 Backed(s, f) && m.PutFile? && ReachesWrite(s.files, m.path, m.data, m.requireExisting, f.store)
                                   && f.store.write == Unsynced)
            && (o == HalfDone ==> (SameDisk(after, s) <==> m.path in s.files && s.files[m.path] == m.data))
  {
    var (after, o) := MutateSpec(s, load, m, f);
    if Backed(s, f) {
      var (files, r) := Mutate(s.files, load, m, f.store);
      if r == Stored {
        var loaded := Reload(s.(files := files), load, f.reloadFails);
        if loaded.stale {
          RollbackRecovers(s, loaded, load, f, false, m.path);
        }
      }
    }
  }

  function Committed(files: Files, m: Mutation): Files {
    match m
    case PutFile(path, data, _) => files[path := data]
    case DeleteFile(path) => files - {path}
  }

  /** What a committed SaveClient leaves in the secret store. */
  function SecretCommitted(secrets: map<string, string>, id: string, password: string, keep: bool)
    : map<string, string> {
    if keep then secrets else if password == "" then secrets - {id} else secrets[id := password]
  }

  /**
   * SaveClient is all or nothing over files, secret and runtime, with two exceptions the source does not promise
   * away: an interrupted configuration write is kept, and a failing status check reports an error after the commit.
   */
  lemma SaveAllOrNothing(s: State, load: Files -> bool, id: string, data: string, password: string, keep: bool,
                         f: Faults)
    ensures var (after, o) := SaveSpec(s, load, id, data, password, keep, f);
            var path := ["clients", id + ".json"];
            && (o == Done || o == StatusUnknown ==> Running(after, load))
            && (o == Done || o == StatusUnknown ==> after.files == s.files[path := data])
            && (o == Done || o == StatusUnknown ==> after.secrets == SecretCommitted(s.secrets, id, password, keep))
            && (o == Unchanged ==> after == s)
            && (o == RolledBack ==> SameDisk(after, s) && (InSync(s) ==> InSync(after)))
            && (o == HalfDone ==> f.store.write == Unsynced && after == s.(files := s.files[path := data]))
  {
    if Backed(s, f) && !f.lookupFails {
      PathIsEditable(id);
      var m := PutFile(ClientPath(id), data, false);
      var (files, r) := PutSpec(s.files, load, ClientPath(id), data, false, f.store);
      if r == Stored {
        var written :=
          s.(files := files, secrets := if keep then s.secrets else SecretWritten(s.secrets, id, password, f.secret));
        RollbackRecovers(s, written, load, f, true, ClientPath(id));
        RollbackRecovers(s, written.(stale := true), load, f, true, ClientPath(id));
      }
    }
  }

  /** A SaveClient that was rolled back soundly leaves the old configuration running. */
  lemma SaveRunsAfterRollback(s: State, load: Files -> bool, id: string, data: string, password: string, keep: bool,
                              f: Faults)
    ensures var (after, o) := SaveSpec(s, load, id, data, password, keep, f);
            o == RolledBack && load(s.files) && !f.secondReloadFails ==> Running(after, load)
  {
    hide Running;
    hide Editable;
    hide Overlay;
    if Backed(s, f) && !f.lookupFails {
      PathIsEditable(id);
      var (files, r) := PutSpec(s.files, load, ClientPath(id), data, false, f.store);
      if r == Stored {
        var written :=
          s.(files := files, secrets := if keep then s.secrets else SecretWritten(s.secrets, id, password, f.secret));
        RollbackRuns(s, written, load, f, true, ClientPath(id));
        RollbackRuns(s, written.(stale := true), load, f, true, ClientPath(id));
      }
    }
  }

  /** The steps of SaveClient up to its configuration write succeed. */
  predicate Begun(s: State, id: string, data: string, f: Faults) {
    Backed(s, f) && !f.lookupFails && ReachesWrite(s.files, ClientPath(id), data, false, f.store)
  }

  /** Every step of SaveClient up to the runtime's rebuild succeeds. */
  predicate Commits(s: State, load: Files -> bool, id: string, data: string, keep: bool, f: Faults) {
    && Begun(s, id, data, f) && f.store.write == Sound && load(s.files[ClientPath(id) := data])
    && (keep || f.secret == Sound) && !f.reloadFails
  }

  /** Something after a sound configuration write goes wrong, and undoing what was done meets a fault. */
  predicate RollbackBreaks(s: State, load: Files -> bool, id: string, data: string, keep: bool, f: Faults) {
    var files := s.files[ClientPath(id) := data];
    && Begun(s, id, data, f) && f.store.write == Sound
    && if load(files) then !Commits(s, load, id, data, keep, f) &&
         (!Restorable(files, EditableIn(s.files), f.stuck) || f.secretRollback != Sound)
       else UndoFails(s.files, ClientPath(id), f.store)
  }

  /**
   * SaveClient succeeds if and only if every step succeeds, its status check included. If it reports an error and
   * no rollback broke, files and secrets are unchanged if and only if neither its configuration write was
   * interrupted after the rename nor everything was committed before the status check, or what was written was
   * already stored.
   */
  lemma SaveUnchangedIff(s: State, load: Files -> bool, id: string, data: string, password: string, keep: bool,
                         f: Faults)
    ensures var (after, o) := SaveSpec(s, load, id, data, password, keep, f);
            var half := Begun(s, id, data, f) && f.store.write == Unsynced;
            var committed := Commits(s, load, id, data, keep, f);
            && (o == Done <==> committed && !f.statusFails)
            && (o == RollbackBroken <==> RollbackBreaks(s, load, id, data, keep, f))
            && (o != Done && o != RollbackBroken ==> (SameDisk(after, s) <==>
                  || (!half && !committed)
                  || (Already(s.files, ClientPath(id), data) &&
                    (half || SecretCommitted(s.secrets, id, password, keep) == s.secrets))))
  {
    SaveAllOrNothing(s, load, id, data, password, keep, f);
    PutUnchangedIff(s.files, load, ClientPath(id), data, false, f.store);
    if Already(s.files, ClientPath(id), data) {
      assert s.files[ClientPath(id) := data] == s.files;
    }
  }

  /** A SaveClient whose final status check fails reports an error although everything was committed. */
  lemma CommittedErrorExists(s: State, load: Files -> bool, id: string, data: string, f: Faults)
    requires |data| <= MAX_RESOURCE && load(s.files[ClientPath(id) := data])
    requires ClientPath(id) !in s.files && Backed(s, f) && !f.lookupFails && !f.reloadFails && f.statusFails
    requires f.store == PutFaults(false, Sound, Sound, false)
    ensures var (after, o) := SaveSpec(s, load, id, data, "", true, f);
            o == StatusUnknown && after.files == s.files[ClientPath(id) := data] && !SameDisk(after, s)
  {
  }

  /** DeleteClient has no such exception: an error means nothing changed, unless the rollback failed. */
  lemma DeleteAllOrNothing(s: State, load: Files -> bool, id: string, f: Faults)
    ensures var (after, o) := DeleteClientSpec(s, load, id, f);
            && (o == Done ==> Running(after, load))
            && (o == Done ==> after.files == s.files - {["clients", id + ".json"]} && after.secrets == s.secrets - {id})
            && (o != Done && o != RollbackBroken ==> SameDisk(after, s) && (InSync(s) ==> InSync(after)))
            && (o == Unchanged ==> after == s)
            && (o == RolledBack && Running(s, load) && !f.secondReloadFails ==> Running(after, load))
  {
    hide Editable;
    hide Overlay;
    if Backed(s, f) && !f.lookupFails {
      PathIsEditable(id);
      DeleteUnchanged(s.files, load, ClientPath(id), f.store);
      var (files, r) := DeleteSpec(s.files, load, ClientPath(id), f.store);
      if r == Stored {
        OverlayUndoes(s.files, files, ClientPath(id));
        var written := s.(files := files, secrets := s.secrets - {id});
        RollbackRecovers(s, written.(stale := true), load, f, true, ClientPath(id));
      }
    }
  }

  /** The mutation changes the stored file and the write is sound. */
  predicate Changes(s: State, m: Mutation, f: Faults) {
    match m
    case PutFile(path, data, requireExisting) => ReachesWrite(s.files, path, data, requireExisting, f.store) &&
      f.store.write == Sound
    case DeleteFile(path) => DeleteReached(s.files, path, f.store)
  }

  predicate DeleteReached(files: Files, p: Path, f: PutFaults) {
    !f.readFails && p in files && !f.removeFails
  }

  /** When a configuration change succeeds, and when its rollback breaks, in terms of state and faults alone. */
  lemma MutateOutcomesIff(s: State, load: Files -> bool, m: Mutation, f: Faults)
    ensures var o := MutateSpec(s, load, m, f).1;
            var files := Committed(s.files, m);
            var changed := Backed(s, f) && Changes(s, m, f);
            var stuck := !Restorable(files, EditableIn(s.files), f.stuck);
            var undone := if m.PutFile? then UndoFails(s.files, m.path, f.store) else f.store.rollback != Sound;
            && (o == Done <==> changed && load(files) && !f.reloadFails)
            && (o == RollbackBroken <==> changed && if load(files) then f.reloadFails && stuck else undone)
  {
  }

  /** The same of deleting a client: its file goes first, then its secret, then the runtime is rebuilt. */
  lemma DeleteOutcomesIff(s: State, load: Files -> bool, id: string, f: Faults)
    ensures var o := DeleteClientSpec(s, load, id, f).1;
            var files := s.files - {ClientPath(id)};
            var changed := Backed(s, f) && !f.lookupFails && DeleteReached(s.files, ClientPath(id), f.store);
            var secretGone := f.secret == Sound;
            var stuck := !Restorable(files, EditableIn(s.files), f.stuck);
            var later := if secretGone then f.reloadFails && (stuck || f.secretRollback != Sound) else stuck;
            && (o == Done <==> changed && load(files) && secretGone && !f.reloadFails)
            && (o == RollbackBroken <==> changed && if load(files) then later else f.store.rollback != Sound)
  {
  }

  // ---- the methods --------------------------------------------------------------------------------------------

  class App {
    const store: Store
    var secrets: map<string, string>
    var runtime: Built
    var stale: bool

    constructor (store: Store, secrets: map<string, string>)
      ensures this.store == store && Current() == State(store.files, secrets, Built(store.files, secrets), false)
    {
      this.store, this.secrets, this.runtime, this.stale := store, secrets, Built(store.files, secrets), false;
    }

    ghost function Current(): State
      reads this, store
    {
      State(store.files, secrets, runtime, stale)
    }

    /** Rebuilds the runtime; the old one keeps running if that fails. */
    method ReloadRuntime(fails: bool)
      modifies this
      ensures Current() == Reload(old(Current()), store.load, fails)
    {
      if !store.load(store.files) || fails {
        stale := true;
      } else {
        runtime, stale := Built(store.files, secrets), false;
      }
    }

    method WriteSecret(id: string, password: string, fault: WriteFault) returns (ok: bool)
      modifies this`secrets
      ensures secrets == SecretWritten(old(secrets), id, password, fault) && (ok <==> fault == Sound)
    {
      if password == "" {
        if fault == Sound {
          secrets := secrets - {id};
        }
      } else if fault != Unwritten {
        secrets := secrets[id := password];
      }
      ok := fault == Sound;
    }

    method RestoreSecret(id: string, value: string, existed: bool, fault: WriteFault) returns (ok: bool)
      modifies this`secrets
      ensures ok <==> fault == Sound
      ensures ok ==> secrets == if existed then old(secrets)[id := value] else old(secrets) - {id}
    {
      if existed {
        if fault != Unwritten {
          secrets := secrets[id := value];
        }
      } else if fault == Sound {
        secrets := secrets - {id};
      }
      ok := fault == Sound;
    }

    /** A configuration change without secrets. */
    method MutateConfig(m: Mutation, f: Faults) returns (o: Outcome)
      modifies this, store
      ensures o == MutateSpec(old(Current()), store.load, m, f).1
      ensures o != RollbackBroken ==> Current() == MutateSpec(old(Current()), store.load, m, f).0
    {
      hide PutSpec;
      hide DeleteSpec;
      hide Editable;
      hide Overlay;
      hide Reload;
      if f.refused {
        return Unchanged;
      }
      var ok, backup := store.Backup(f.unreadable);
      if !ok {
        return Unchanged;
      }
      var r;
      match m {
        case PutFile(path, data, requireExisting) =>
          r := store.PutValidated(path, data, requireExisting, f.store);
        case DeleteFile(path) =>
          r := store.Delete(path, f.store);
      }
      if r != Stored {
        return Stopped(r);
      }
      ReloadRuntime(f.reloadFails);
      if stale {
        ok := store.Restore(backup, f.stuck);
        ReloadRuntime(f.secondReloadFails);
        return if ok then RolledBack else RollbackBroken;
      }
      o := Done;
    }

    /** `keep` says that no password was given. */
    method SaveClient(id: string, data: string, password: string, keep: bool, f: Faults) returns (o: Outcome)
      modifies this, store
      ensures o == SaveSpec(old(Current()), store.load, id, data, password, keep, f).1
      ensures o != RollbackBroken ==> Current() == SaveSpec(old(Current()), store.load, id, data, password, keep, f).0
    {
      hide PutSpec;
      hide DeleteSpec;
      hide Editable;
      hide Overlay;
      if f.refused {
        return Unchanged;
      }
      var ok, backup := store.Backup(f.unreadable);
      if !ok || f.lookupFails {
        return Unchanged;
      }
      var existed := id in secrets;
      var value := if existed then secrets[id] else "";
      var r := store.PutValidated(ClientPath(id), data, false, f.store);
      if r != Stored {
        return Stopped(r);
      }
      if !keep {
        ok := WriteSecret(id, password, f.secret);
        if !ok {
          ok := Rollback(backup, id, value, existed, old(secrets), f);
          return if ok then RolledBack else RollbackBroken;
        }
      }
      ReloadRuntime(f.reloadFails);
      if stale {
        ok := Rollback(backup, id, value, existed, old(secrets), f);
        return if ok then RolledBack else RollbackBroken;
      }
      o := if f.statusFails then StatusUnknown else Done;
    }

    method Rollback(backup: Files, id: string, value: string, existed: bool, ghost was: map<string, string>, f: Faults)
      returns (ok: bool)
      requires forall p :: p in backup ==> Editable(p)
      requires existed <==> id in was
      requires existed ==> was[id] == value
      requires secrets - {id} == was - {id}
      modifies this, store
      ensures ok <==> Restorable(old(store.files), backup, f.stuck) && f.secretRollback == Sound
      ensures ok ==> Current() == Reload(RestoredTo(old(Current()), backup, was), store.load, f.secondReloadFails)
    {
      var restored := store.Restore(backup, f.stuck);
      var secretRestored := RestoreSecret(id, value, existed, f.secretRollback);
      SecretBack(old(secrets), was, id);
      ReloadRuntime(f.secondReloadFails);
      ok := restored && secretRestored;
    }

    method DeleteClient(id: string, f: Faults) returns (o: Outcome)
      modifies this, store
      ensures o == DeleteClientSpec(old(Current()), store.load, id, f).1
      ensures o != RollbackBroken ==> Current() == DeleteClientSpec(old(Current()), store.load, id, f).0
    {
      hide PutSpec;
      hide DeleteSpec;
      hide Editable;
      hide Overlay;
      if f.refused {
        return Unchanged;
      }
      var ok, backup := store.Backup(f.unreadable);
      if !ok || f.lookupFails {
        return Unchanged;
      }
      var existed := id in secrets;
      var value := if existed then secrets[id] else "";
      var r := store.Delete(ClientPath(id), f.store);
      if r != Stored {
        return Stopped(r);
      }
      if f.secret != Sound {
        ok := store.Restore(backup, f.stuck);
        return if ok then RolledBack else RollbackBroken;
      }
      secrets := secrets - {id};
      ReloadRuntime(f.reloadFails);
      if stale {
        ok := Rollback(backup, id, value, existed, old(secrets), f);
        return if ok then RolledBack else RollbackBroken;
      }
      o := Done;
    }
  }

  lemma SecretBack(now: map<string, string>, was: map<string, string>, id: string)
    requires now - {id} == was - {id}
    ensures id in was ==> now[id := was[id]] == was
    ensures id !in was ==> now - {id} == was
  {
    forall k | k != id ensures (k in now <==> k in was) && (k in now ==> now[k] == was[k]) {
      assert k in now - {id} <==> k in now;
      assert k in was - {id} <==> k in was;
      assert k in now ==> (now - {id})[k] == now[k];
    }
  }
}

/**
 * Editable configuration files with rollback. Paths are component lists below the configuration root. `load` says
 * which file sets form a valid configuration; I/O faults are parameters, so every combination is covered.
 */
module ConfigStore {
  type Path = seq<string>
  type Files = map<Path, string>

  const MAX_RESOURCE := 0x10_0000

  /** An atomic write can fail before its rename, or after it when the directory cannot be synced. */
  datatype WriteFault = Sound | Unwritten | Unsynced

  datatype PutFaults = PutFaults(readFails: bool, write: WriteFault, rollback: WriteFault, removeFails: bool)

  /** `HalfWritten` is the error of a write that was visible but not synced; nothing is rolled back then. */
  datatype PutResult = Stored | Refused | HalfWritten | RollbackFailed

  predicate IsJson(name: string) {
    |name| >= 5 && name[|name| - 5..] == ".json"
  }

  /** The files a backup covers. */
  predicate Editable(p: Path) {
    p == ["organizer.json"] || (|p| == 2 && (p[0] == "clients" || p[0] == "sources") && IsJson(p[1]))
  }

  /** Editable are organizer.json and the JSON files directly below clients and sources, and nothing else. */
  lemma EditableMeaning(p: Path)
    ensures Editable(p) <==> p == ["organizer.json"] || exists name: string ::
      p == ["clients", name + ".json"] || p == ["sources", name + ".json"]
  {
    if Editable(p) && p != ["organizer.json"] {
      var name := p[1][..|p[1]| - 5];
      assert p[1] == name + ".json";
      assert p == [p[0], name + ".json"];
    }
    if name: string :| p == ["clients", name + ".json"] || p == ["sources", name + ".json"] {
      assert (name + ".json")[|name|..] == ".json";
    }
  }

  function EditableIn(files: Files): Files {
    map p | p in files && Editable(p) :: files[p]
  }

  /** The files with their editable part replaced. */
  function Overlay(files: Files, backup: Files): Files {
    (map p | p in files && !Editable(p) :: files[p]) + backup
  }

  /**
   * Restoring a backup recovers the editable files exactly, whatever happened to the files in between, and leaves
   * the others as they are; a state that differs only in editable files is recovered completely.
   */
  lemma RestoreRecovers(before: Files, later: Files)
    ensures EditableIn(Overlay(later, EditableIn(before))) == EditableIn(before)
    ensures forall p :: !Editable(p) ==>
      (p in Overlay(later, EditableIn(before)) <==> p in later) &&
        (p in later ==> Overlay(later, EditableIn(before))[p] == later[p])
    ensures Overlay(later, EditableIn(before)) == before <==>
      (map p | p in later && !Editable(p) :: later[p]) == (map p | p in before && !Editable(p) :: before[p])
  {
  }

  function Written(files: Files, p: Path, data: string, fault: WriteFault): Files {
    if fault == Unwritten then files else files[p := data]
  }

  /** What a validated write leaves behind, for every combination of faults. */
  function PutSpec(files: Files, load: Files -> bool, p: Path, data: string, requireExisting: bool, f: PutFaults)
    : (Files, PutResult) {
    if |data| > MAX_RESOURCE || f.readFails || (requireExisting && p !in files) then (files, Refused)
    else if f.write == Unwritten then (files, Refused)
    else if f.write == Unsynced then (files[p := data], HalfWritten)
    else if load(files[p := data]) then (files[p := data], Stored)
    else if p in files
      then (Written(files[p := data], p, files[p], f.rollback), if f.rollback == Sound then Refused else RollbackFailed)
    else if f.removeFails then (files[p := data], RollbackFailed)
    else (files, Refused)
  }

  /** The checks before the write let this Put through. */
  predicate ReachesWrite(files: Files, p: Path, data: string, requireExisting: bool, f: PutFaults) {
    |data| <= MAX_RESOURCE && !f.readFails && (requireExisting ==> p in files)
  }

  predicate Already(files: Files, p: Path, data: string) {
    p in files && files[p] == data
  }

  /** A rejected write meets a fault while it is undone. */
  predicate UndoFails(files: Files, p: Path, f: PutFaults) {
    if p in files then f.rollback != Sound else f.removeFails
  }

  /**
   * A Put succeeds if and only if its write is reached, is sound, and yields a loadable configuration, which is then
   * stored; its rollback fails if and only if a sound write yields none and undoing it meets a fault. Any other Put
   * reports an error and leaves the files unchanged if and only if it did not reach a write that was interrupted
   * after the rename, or the data was there before.
   */
  lemma PutUnchangedIff(files: Files, load: Files -> bool, p: Path, data: string, requireExisting: bool, f: PutFaults)
    ensures var (after, r) := PutSpec(files, load, p, data, requireExisting, f);
            var reached := ReachesWrite(files, p, data, requireExisting, f);
            var written := reached && f.write == Sound;
            && (r == Stored <==> written && load(files[p := data]))
            && (r == Stored ==> after == files[p := data])
            && (r == RollbackFailed <==> written && !load(files[p := data]) && UndoFails(files, p, f))
            && (r != Stored && r != RollbackFailed ==>
                  (after == files <==> !(reached && f.write == Unsynced) || Already(files, p, data)))
  {
    if Already(files, p, data) {
      assert files[p := data] == files;
    }
  }

  /** A failed directory sync makes Put report an error although the new, never validated content stays. */
  lemma HalfWrittenPutStays(load: Files -> bool)
    ensures PutSpec(map[["organizer.json"] := "old"], load, ["organizer.json"], "new", true,
      PutFaults(false, Unsynced, Sound, false))
         == (map[["organizer.json"] := "new"], HalfWritten)
  {
    assert |"new"| <= MAX_RESOURCE;
    assert map[["organizer.json"] := "old"][["organizer.json"] := "new"] == map[["organizer.json"] := "new"];
  }

  /** `removeFails` concerns the deletion itself, `rollback` the write that brings the file back. */
  function DeleteSpec(files: Files, load: Files -> bool, p: Path, f: PutFaults): (Files, PutResult) {
    if f.readFails || p !in files || f.removeFails then (files, Refused)
    else if load(files - {p}) then (files - {p}, Stored)
    else (Written(files - {p}, p, files[p], f.rollback), if f.rollback == Sound then Refused else RollbackFailed)
  }

  /** A Delete that reports an error changes nothing unless its rollback failed, and never loses any other file. */
  lemma DeleteUnchanged(files: Files, load: Files -> bool, p: Path, f: PutFaults)
    ensures var (after, r) := DeleteSpec(files, load, p, f);
            && (r == Stored ==> after == files - {p} && p in files && load(after))
            && (r != Stored && r != RollbackFailed ==> after == files)
            && after - {p} == files - {p}
            && r != HalfWritten
  {
  }

  class Store {
    var files: Files
    const load: Files -> bool

    constructor (files: Files, load: Files -> bool)
      ensures this.files == files && this.load == load
    {
      this.files, this.load := files, load;
    }

    method Write(p: Path, data: string, fault: WriteFault) returns (ok: bool)
      modifies this
      ensures files == Written(old(files), p, data, fault) && (ok <==> fault == Sound)
    {
      if fault != Unwritten {
        files := files[p := data];
      }
      ok := fault == Sound;
    }

    method PutValidated(p: Path, data: string, requireExisting: bool, f: PutFaults) returns (r: PutResult)
      modifies this
      ensures (files, r) == PutSpec(old(files), load, p, data, requireExisting, f)
    {
      if |data| > MAX_RESOURCE || f.readFails {
        return Refused;
      }
      var existed := p in files;
      var was := if existed then files[p] else "";
      if requireExisting && !existed {
        return Refused;
      }
      var ok := Write(p, data, f.write);
      if !ok {
        return if f.write == Unsynced then HalfWritten else Refused;
      }
      if !load(files) {
        if existed {
          ok := Write(p, was, f.rollback);
          return if ok then Refused else RollbackFailed;
        }
        if f.removeFails {
          return RollbackFailed;
        }
        files := files - {p};
        assert files == old(files);
        return Refused;
      }
      r := Stored;
    }

    method Delete(p: Path, f: PutFaults) returns (r: PutResult)
      modifies this
      ensures (files, r) == DeleteSpec(old(files), load, p, f)
    {
      if f.readFails || p !in files {
        return Refused;
      }
      var was := files[p];
      if f.removeFails {
        return Refused;
      }
      files := files - {p};
      if !load(files) {
        var ok := Write(p, was, f.rollback);
        return if ok then Refused else RollbackFailed;
      }
      r := Stored;
    }

    /** Captures the editable files, unless one of them cannot be read. */
    method Backup(unreadable: set<Path>) returns (ok: bool, backup: Files)
      ensures ok <==> EditableIn(files).Keys !! unreadable
      ensures ok ==> backup == EditableIn(files)
    {
      backup := map[];
      if ["organizer.json"] in files {
        if ["organizer.json"] in unreadable {
          assert ["organizer.json"] in EditableIn(files).Keys;
          return false, map[];
        }
        backup := map[["organizer.json"] := files[["organizer.json"]]];
      }
      var dirs := ["clients", "sources"];
      for d := 0 to 2
        invariant forall p :: p in backup <==>
          p in files && (p == ["organizer.json"] || exists k :: 0 <= k < d && Listed(files, dirs[k], p))
        invariant forall p :: p in backup ==> backup[p] == files[p] && p !in unreadable
      {
        var entries := set p | p in files && Listed(files, dirs[d], p);
        ghost var start := backup;
        while entries != {}
          invariant forall p :: p in entries ==> p in files && Listed(files, dirs[d], p)
          invariant forall p :: p in backup <==>
            p in start || (p in files && Listed(files, dirs[d], p) && p !in entries)
          invariant forall p :: p in backup ==> backup[p] == files[p] && p !in unreadable
          decreases |entries|
        {
          var p :| p in entries;
          entries := entries - {p};
          if p in unreadable {
            assert p in EditableIn(files).Keys;
            return false, map[];
          }
          backup := backup[p := files[p]];
        }
      }
      ok := true;
      forall p ensures p in backup <==> p in EditableIn(files) {
        assert Listed(files, dirs[0], p) || Listed(files, dirs[1], p) || p == ["organizer.json"] || !Editable(p) ||
          p !in files;
      }
      assert backup == EditableIn(files);
    }

    /**
     * Brings the editable files back. If a file is stuck the call fails half way, but every file is then still as
     * it was, as the backup has it, or gone because the backup lacks it.
     */
    method Restore(backup: Files, stuck: set<Path>) returns (ok: bool)
      requires forall p :: p in backup ==> Editable(p)
      modifies this
      ensures ok <==> (EditableIn(old(files)).Keys - backup.Keys !! stuck && backup.Keys !! stuck)
      ensures ok ==> files == Overlay(old(files), backup)
      ensures forall p :: p in files ==>
        (p in old(files) && files[p] == old(files)[p]) || (p in backup && files[p] == backup[p])
      ensures forall p :: p in old(files) && p !in files ==> Editable(p) && p !in backup
    {
      hide Editable;
      ok := RemoveForeign(backup, stuck);
      if ok {
        ok := WriteBack(backup, stuck);
      }
    }

    /** Removes the editable files the backup does not have. */
    method RemoveForeign(backup: Files, stuck: set<Path>) returns (ok: bool)
      modifies this
      ensures ok <==> EditableIn(old(files)).Keys - backup.Keys !! stuck
      ensures ok ==> forall p :: p in files <==> p in old(files) && (!Editable(p) || p in backup)
      ensures forall p :: p in files ==> p in old(files) && files[p] == old(files)[p]
      ensures forall p :: p in old(files) && p !in files ==> Editable(p) && p !in backup
    {
      var foreign := set p | p in files && Editable(p) && p !in backup;
      while foreign != {}
        invariant foreign <= EditableIn(old(files)).Keys - backup.Keys
        invariant forall p :: p in files <==> p in old(files) && (!Editable(p) || p in backup || p in foreign)
        invariant forall p :: p in files ==> files[p] == old(files)[p]
        invariant forall p :: p in EditableIn(old(files)).Keys - backup.Keys - foreign ==> p !in stuck
        decreases |foreign|
      {
        var p :| p in foreign;
        if p in stuck {
          return false;
        }
        foreign := foreign - {p};
        files := files - {p};
      }
      ok := true;
    }

    method WriteBack(backup: Files, stuck: set<Path>) returns (ok: bool)
      modifies this
      ensures ok <==> backup.Keys !! stuck
      ensures ok ==> files == old(files) + backup
      ensures forall p :: p in files ==>
        (p in old(files) && files[p] == old(files)[p]) || (p in backup && files[p] == backup[p])
      ensures old(files).Keys <= files.Keys
    {
      var rest := backup.Keys;
      while rest != {}
        invariant rest <= backup.Keys && backup.Keys - rest !! stuck
        invariant files == old(files) + (map p | p in backup && p !in rest :: backup[p])
        decreases |rest|
      {
        var p :| p in rest;
        if p in stuck {
          var renamed: bool := *;
          if renamed {
            files := files[p := backup[p]];
          }
          return false;
        }
        rest := rest - {p};
        files := files[p := backup[p]];
      }
      ok := true;
      assert (map p | p in backup && p !in rest :: backup[p]) == backup;
    }
  }

  /** A directory entry of `dir` that holds a configuration resource. */
  predicate Listed(files: Files, dir: string, p: Path) {
    p in files && |p| == 2 && p[0] == dir && IsJson(p[1])
  }
}

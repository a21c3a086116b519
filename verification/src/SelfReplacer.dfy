/** Replacing the running binary on a file system where every call can fail and the machine can stop at
    any point (self-replacer/src/replacer.rs). */
module SelfReplacer {
  import opened ConfigTypes

  // ---- Paths ----

  /** A path; the root, or one that ends in `..`, has no file name. */
  datatype Path = Path(directory: seq<string>, file: Option<string>)

  const BACKUP_SUFFIX := "bak"
  const TEMP_PREFIX := "__temp__"

  function BackupPath(target: Path): Path {
    var name := if target.file.Some? then target.file.value else "replaced_binary";
    target.(file := Some(name + "." + BACKUP_SUFFIX))
  }

  predicate HasParent(target: Path) {
    target.file.Some? || target.directory != []
  }

  function LastDot(name: string): (i: int)
    ensures -1 <= i < |name|
    ensures i >= 0 ==> name[i] == '.'
    ensures forall k :: i < k < |name| ==> name[k] != '.'
  {
    if name == [] then -1
    else if name[|name| - 1] == '.' then |name| - 1
    else LastDot(name[..|name| - 1])
  }

  /** The file name without its last extension; a leading dot does not start an extension. */
  function FileStem(name: string): string {
    if LastDot(name) <= 0 then name else name[..LastDot(name)]
  }

  /** The directory a path is in. */
  function Parent(target: Path): seq<string> {
    if target.file.Some? || target.directory == [] then target.directory
    else target.directory[..|target.directory| - 1]
  }

  /** The staging file: in the target's directory, hidden, and made unique by random characters. */
  function TempPath(target: Path, random: string): Path {
    var prefix := if target.file.Some? then "." + FileStem(target.file.value) + "." else ".";
    Path(Parent(target), Some(prefix + TEMP_PREFIX + random))
  }

  lemma StagedNameIsNew(name: string, random: string)
    requires '.' !in random
    ensures "." + FileStem(name) + "." + TEMP_PREFIX + random != name
    ensures "." + FileStem(name) + "." + TEMP_PREFIX + random != name + "." + BACKUP_SUFFIX
  {
    var stem, tail := FileStem(name), TEMP_PREFIX + random;
    var temp := "." + stem + "." + tail;
    assert temp == ("." + stem) + ['.'] + tail;
    assert temp == "." + stem + "." + TEMP_PREFIX + random;
    assert '.' !in tail;
    if temp == name {
      var i := LastDot(name);
      if i > 0 {
        assert name == stem + ['.'] + name[i + 1..];
        assert '.' !in name[i + 1..];
        LastSeparator("." + stem, tail, stem, name[i + 1..], '.');
      }
      assert false;
    }
    if temp == name + ['.'] + BACKUP_SUFFIX {
      LastSeparator("." + stem, tail, name, BACKUP_SUFFIX, '.');
      assert false;
    }
  }

  /** The staging file is never the target nor its backup, whatever the target is called. */
  lemma StagingIsElsewhere(target: Path, random: string)
    requires '.' !in random
    ensures TempPath(target, random) != target
    ensures TempPath(target, random) != BackupPath(target)
    ensures BackupPath(target) != target
  {
    if target.file.Some? {
      StagedNameIsNew(target.file.value, random);
    } else {
      assert TempPath(target, random).file.value[0] != BackupPath(target).file.value[0];
    }
  }

  /** The name without what follows its last dot, unless that is the first character or there is none. */
  lemma StemExactly(stem: string, extension: string)
    requires '.' !in extension
    ensures FileStem(stem + "." + extension) == if stem == [] then "." + extension else stem
    ensures FileStem(extension) == extension
  {
    var name := stem + "." + extension;
    assert name[|stem|] == '.' && forall k :: |stem| < k < |name| ==> name[k] == extension[k - |stem| - 1];
    assert LastDot(name) == |stem|;
    assert name[..|stem|] == stem;
    assert LastDot(extension) == -1;
  }

  /** The backup is the target's name with `.bak` after it, and the staging file `.<stem>.__temp__<random>`, both in
      the target's directory; a target without a name has its own two. */
  lemma PathsExactly(directory: seq<string>, name: string, random: string)
    ensures BackupPath(Path(directory, Some(name))) == Path(directory, Some(name + ".bak"))
    ensures TempPath(Path(directory, Some(name)), random)
         == Path(directory, Some("." + FileStem(name) + "." + "__temp__" + random))
    ensures BackupPath(Path(directory, None)) == Path(directory, Some("replaced_binary.bak"))
    ensures directory != [] ==>
              TempPath(Path(directory, None), random)
              == Path(directory[..|directory| - 1], Some("." + "__temp__" + random))
  {
    assert name + "." + "bak" == name + ".bak" && "replaced_binary" + "." + "bak" == "replaced_binary.bak";
  }

  // ---- The file system and its failures ----

  datatype File = File(content: string, permissions: nat)

  type Files = map<Path, File>

  datatype Platform = Unix | Windows

  /** How a copy goes: it may fail before it touches its destination, or leave anything there. Even a
      copy that succeeds passes through some partial destination. */
  datatype CopyFault = Refused | Broken(partial: File) | Complete(partial: File)

  /** Which calls fail. `finalMissing` is the kind of error a failing final rename gives. */
  datatype Faults = Faults(
    metadataOk: bool,
    backupCopy: CopyFault,
    vacateOk: bool,
    tempOk: bool,
    moveOk: bool,
    stageCopy: CopyFault,
    permissionsOk: bool,
    cleanupOk: bool,
    finalOk: bool,
    finalMissing: bool,
    restoreOk: bool)

  datatype ReplaceError =
    | NewBinaryNotFound | Metadata | BackupCreationFailed | NoParentDirectory
    | TempCopyFailed | ReplaceFailed | BackupRestoreFailed

  datatype Places = Places(target: Path, newBin: Path, temp: Path) {
    function Backup(): Path {
      BackupPath(target)
    }

    function All(): set<Path> {
      {target, Backup(), newBin, temp}
    }

    predicate Distinct() {
      && newBin != target && newBin != Backup() && newBin != temp
      && temp != target && temp != Backup() && Backup() != target
    }

    /** The three files of a replacement and its backup are four different ones, and the staging file
        does not exist yet. */
    predicate Apart(files: Files) {
      Distinct() && temp !in files
    }
  }

  function PlacesFor(target: Path, newBin: Path, random: string): Places {
    Places(target, newBin, TempPath(target, random))
  }

  /** All it takes is a new binary somewhere else and a random name nobody uses. */
  predicate Unused(files: Files, target: Path, newBin: Path, random: string) {
    && newBin != target && newBin != BackupPath(target) && newBin != TempPath(target, random)
    && '.' !in random && TempPath(target, random) !in files
  }

  lemma PlacesAreApart(files: Files, target: Path, newBin: Path, random: string)
    requires Unused(files, target, newBin, random)
    ensures PlacesFor(target, newBin, random).Apart(files)
  {
    StagingIsElsewhere(target, random);
  }

  // ---- The replacement ----

  /** The states the file system goes through, one after each atomic change, and how it ends. */
  datatype Trace = Trace(states: seq<Files>, error: Option<ReplaceError>)

  function Last(start: Files, states: seq<Files>): Files {
    if states == [] then start else states[|states| - 1]
  }

  function End(start: Files, trace: Trace): Files {
    Last(start, trace.states)
  }

  function After(states: seq<Files>, rest: Trace): Trace {
    Trace(states + rest.states, rest.error)
  }

  lemma InTwoParts(history: seq<Files>, start: Files, first: seq<Files>, rest: seq<Files>)
    ensures history + first + rest == history + (first + rest)
    ensures Last(start, first + rest) == Last(Last(start, first), rest)
  {
    Regroup(history, first, rest);
  }

  /** `fs::rename` */
  function RenameStates(files: Files, from: Path, to: Path, ok: bool): seq<Files> {
    if ok && from in files then [(files - {from})[to := files[from]]] else []
  }

  /** `fs::copy` */
  function CopyStates(files: Files, from: Path, to: Path, fault: CopyFault): seq<Files> {
    if from !in files || fault.Refused? then []
    else [files[to := fault.partial]] + if fault.Complete? then [files[to := files[from]]] else []
  }

  predicate CopyOk(files: Files, from: Path, fault: CopyFault) {
    from in files && fault.Complete?
  }

  /** Removing a file, if it is there and can be removed. */
  function RemoveStates(files: Files, path: Path, ok: bool): seq<Files> {
    if ok && path in files then [files - {path}] else []
  }

  /** `fs::set_permissions` */
  function PermissionStates(files: Files, path: Path, permissions: nat, ok: bool): seq<Files> {
    if ok && path in files then [files[path := files[path].(permissions := permissions)]] else []
  }

  /** An error drops the handle of the staging file, which removes it. */
  function Aborted(files: Files, temp: Path, faults: Faults, error: ReplaceError): Trace {
    Trace(RemoveStates(files, temp, faults.cleanupOk), Some(error))
  }

  /** The new binary is moved into the staging file, or copied if it cannot be moved. */
  function PutStates(files: Files, p: Places, faults: Faults): seq<Files> {
    if faults.moveOk && p.newBin in files then RenameStates(files, p.newBin, p.temp, true)
    else CopyStates(files, p.newBin, p.temp, faults.stageCopy)
  }

  predicate PutOk(files: Files, p: Places, faults: Faults) {
    p.newBin in files && (faults.moveOk || faults.stageCopy.Complete?)
  }

  function Allow(files: Files, p: Places, permissions: nat, faults: Faults): Trace {
    if faults.permissionsOk && p.temp in files then Trace(PermissionStates(files, p.temp, permissions, true), None)
    else Aborted(files, p.temp, faults, TempCopyFailed)
  }

  function Fill(files: Files, p: Places, permissions: nat, faults: Faults): Trace {
    var states := PutStates(files, p, faults);
    var filled := Last(files, states);
    After(states, if PutOk(files, p, faults) then Allow(filled, p, permissions, faults)
                  else Aborted(filled, p.temp, faults, TempCopyFailed))
  }

  const EMPTY_FILE := File("", 0)

  /** `create_temp_file` */
  function Stage(files: Files, p: Places, permissions: nat, faults: Faults): Trace {
    if !HasParent(p.target) then Trace([], Some(NoParentDirectory))
    else if !faults.tempOk then Trace([], Some(TempCopyFailed))
    else
      var created := files[p.temp := EMPTY_FILE];
      After([created], Fill(created, p, permissions, faults))
  }

  /** The final rename, and the attempt to restore the backup if it fails. */
  function Commit(files: Files, p: Places, faults: Faults): Trace {
    var done := RenameStates(files, p.temp, p.target, faults.finalOk);
    if done != [] then Trace(done, None)
    else
      var restored := RenameStates(files, p.Backup(), p.target, faults.restoreOk);
      if restored == [] then Aborted(files, p.temp, faults, BackupRestoreFailed)
      else
        var error := if faults.finalMissing then NewBinaryNotFound else ReplaceFailed;
        After(restored, Aborted(Last(files, restored), p.temp, faults, error))
  }

  /** Staging, and the final rename if it succeeds. */
  function Install(files: Files, p: Places, permissions: nat, faults: Faults): Trace {
    var staged := Stage(files, p, permissions, faults);
    if staged.error.Some? then staged else After(staged.states, Commit(End(files, staged), p, faults))
  }

  /** Unix copies the binary to its backup; Windows moves it there. */
  function BackUp(files: Files, platform: Platform, p: Places, faults: Faults): seq<Files> {
    match platform
    case Unix => CopyStates(files, p.target, p.Backup(), faults.backupCopy)
    case Windows => RenameStates(files, p.target, p.Backup(), faults.vacateOk)
  }

  /** The backup was made. */
  predicate BackedUp(files: Files, platform: Platform, p: Places, faults: Faults) {
    && faults.metadataOk && p.target in files
    && match platform
       case Unix => faults.backupCopy.Complete?
       case Windows => faults.vacateOk
  }

  /** `replace_binary` */
  function Replace(files: Files, platform: Platform, p: Places, faults: Faults): Trace {
    if !faults.metadataOk || p.target !in files then Trace([], Some(Metadata))
    else
      var states := BackUp(files, platform, p, faults);
      if !BackedUp(files, platform, p, faults) then Trace(states, Some(BackupCreationFailed))
      else After(states, Install(Last(files, states), p, files[p.target].permissions, faults))
  }

  /** `self_replace` */
  function SelfReplace(files: Files, platform: Platform, p: Places, faults: Faults): Trace {
    if p.newBin !in files then Trace([], Some(NewBinaryNotFound)) else Replace(files, platform, p, faults)
  }

  // ---- Crash safety ----

  predicate Has(files: Files, path: Path, file: File) {
    path in files && files[path] == file
  }

  function At(files: Files, path: Path): Option<File> {
    if path in files then Some(files[path]) else None
  }

  /** The old binary is at the target or at its backup. */
  predicate OldKept(files: Files, p: Places, binary: File) {
    Has(files, p.target, binary) || Has(files, p.Backup(), binary)
  }

  /** The target is the old binary, or the new one with the old permissions. */
  predicate OldOrNew(files: Files, p: Places, binary: File, content: Option<string>) {
    Has(files, p.target, binary) || (content.Some? && Has(files, p.target, File(content.value, binary.permissions)))
  }

  predicate OthersUntouched(files: Files, start: Files, p: Places) {
    files - p.All() == start - p.All()
  }

  /** The replacement is complete: new content, old permissions, old backup. */
  predicate Replaced(files: Files, p: Places, binary: File, content: Option<string>) {
    && content.Some?
    && Has(files, p.target, File(content.value, binary.permissions))
    && Has(files, p.Backup(), binary)
  }

  function NewContent(files: Files, p: Places): Option<string> {
    if p.newBin in files then Some(files[p.newBin].content) else None
  }

  /** The new binary leaves its place for the staging file. */
  predicate Moved(files: Files, p: Places, faults: Faults) {
    HasParent(p.target) && faults.tempOk && faults.moveOk && p.newBin in files
  }

  /** The new binary gets into the staging file one way or the other, with its permissions. */
  predicate Staged(files: Files, p: Places, faults: Faults) {
    && HasParent(p.target) && faults.tempOk && faults.permissionsOk
    && p.newBin in files && (faults.moveOk || faults.stageCopy.Complete?)
  }

  /** A state that staging can go through: the target, its backup and all other files are as before. */
  predicate Quiet(s: Files, files: Files, p: Places) {
    && At(s, p.target) == At(files, p.target)
    && At(s, p.Backup()) == At(files, p.Backup())
    && OthersUntouched(s, files, p)
  }

  lemma PutIsQuiet(files: Files, p: Places, faults: Faults)
    requires p.Distinct() && p.temp in files && HasParent(p.target) && faults.tempOk
    ensures
      var states := PutStates(files, p, faults);
      var filled := Last(files, states);
      && (forall s :: s in states ==> Quiet(s, files, p))
      && Quiet(filled, files, p) && p.temp in filled
      && (PutOk(files, p, faults) ==> filled[p.temp].content == files[p.newBin].content)
      && At(filled, p.newBin) == (if Moved(files, p, faults) then None else At(files, p.newBin))
  {
  }

  lemma AllowIsQuiet(files: Files, p: Places, permissions: nat, faults: Faults)
    requires p.Distinct() && p.temp in files
    ensures
      var t := Allow(files, p, permissions, faults);
      && (forall s :: s in t.states ==> Quiet(s, files, p))
      && (t.error.None? <==> faults.permissionsOk)
      && (t.error.None? ==> Has(End(files, t), p.temp, File(files[p.temp].content, permissions)))
      && (t.error.Some? ==> t.error == Some(TempCopyFailed) && (faults.cleanupOk ==> p.temp !in End(files, t)))
      && At(End(files, t), p.newBin) == At(files, p.newBin)
  {
  }

  lemma AbortIsQuiet(files: Files, p: Places, faults: Faults, error: ReplaceError)
    requires p.Distinct()
    ensures
      var t := Aborted(files, p.temp, faults, error);
      && (forall s :: s in t.states ==> Quiet(s, files, p))
      && (faults.cleanupOk ==> p.temp !in End(files, t))
      && At(End(files, t), p.newBin) == At(files, p.newBin)
  {
  }

  lemma QuietChains(a: Files, b: Files, c: Files, p: Places)
    requires Quiet(a, b, p) && Quiet(b, c, p)
    ensures Quiet(a, c, p)
  {
  }

  /** Staging touches neither the target nor its backup, and it either has the new content ready with the
      old permissions or cleans up. */
  lemma FillIsQuiet(files: Files, p: Places, permissions: nat, faults: Faults)
    requires p.Distinct() && p.temp in files && HasParent(p.target) && faults.tempOk
    ensures
      var t := Fill(files, p, permissions, faults);
      && (forall s :: s in t.states ==> Quiet(s, files, p))
      && (t.error.None? <==> Staged(files, p, faults))
      && (t.error.None? ==> Has(End(files, t), p.temp, File(files[p.newBin].content, permissions)))
      && (t.error.Some? ==> t.error == Some(TempCopyFailed) && (faults.cleanupOk ==> p.temp !in End(files, t)))
      && At(End(files, t), p.newBin) == (if Moved(files, p, faults) then None else At(files, p.newBin))
  {
    var states := PutStates(files, p, faults);
    var filled := Last(files, states);
    var rest := if PutOk(files, p, faults) then Allow(filled, p, permissions, faults)
                else Aborted(filled, p.temp, faults, TempCopyFailed);
    PutIsQuiet(files, p, faults);
    AllowIsQuiet(filled, p, permissions, faults);
    AbortIsQuiet(filled, p, faults, TempCopyFailed);
    forall s | s in (states + rest.states)
      ensures Quiet(s, files, p)
    {
      if s !in states {
        QuietChains(s, filled, files, p);
      }
    }
  }

  lemma StageIsQuiet(files: Files, p: Places, permissions: nat, faults: Faults)
    requires p.Apart(files)
    ensures
      var t := Stage(files, p, permissions, faults);
      && (forall s :: s in t.states ==> Quiet(s, files, p))
      && (t.error.None? <==> Staged(files, p, faults))
      && (t.error.None? ==> Has(End(files, t), p.temp, File(files[p.newBin].content, permissions)))
      && (t.error.Some? ==>
          t.error.value in {NoParentDirectory, TempCopyFailed} && (faults.cleanupOk ==> p.temp !in End(files, t)))
      && At(End(files, t), p.newBin) == (if Moved(files, p, faults) then None else At(files, p.newBin))
  {
    if HasParent(p.target) && faults.tempOk {
      var created := files[p.temp := EMPTY_FILE];
      var rest := Fill(created, p, permissions, faults);
      assert Quiet(created, files, p) && At(created, p.newBin) == At(files, p.newBin);
      FillIsQuiet(created, p, permissions, faults);
      InTwoParts([], files, [created], rest.states);
      forall s | s in [created] + rest.states
        ensures Quiet(s, files, p)
      {
        if s != created {
          QuietChains(s, created, files, p);
        }
      }
    }
  }

  /** What the rest of a replacement guarantees once the backup exists, at every state it goes through:
      nothing is lost, and where the target was still in place it stays usable. */
  ghost predicate Safe(files: Files, t: Trace, p: Places, binary: File, content: Option<string>) {
    && (forall s :: s in t.states ==> OldKept(s, p, binary) && OthersUntouched(s, files, p))
    && (forall s :: s in t.states ==> (p.target in s ==> OldOrNew(s, p, binary, content)))
    && (Has(files, p.target, binary) ==>
          && (forall s :: s in t.states ==> p.target in s)
          && (t.error.Some? ==> Has(End(files, t), p.target, binary)))
    && (t.error.None? ==> Replaced(End(files, t), p, binary, content))
    && (p.target !in files && t.error.Some? ==>
          if t.error.value in {ReplaceFailed, NewBinaryNotFound} then Has(End(files, t), p.target, binary)
          else p.target !in End(files, t) && Has(End(files, t), p.Backup(), binary))
  }

  lemma FinishedIsSafe(files: Files, p: Places, faults: Faults, binary: File, content: string)
    requires p.Distinct() && Has(files, p.Backup(), binary) && (Has(files, p.target, binary) || p.target !in files)
    requires Has(files, p.temp, File(content, binary.permissions)) && faults.finalOk
    ensures
      var t := Commit(files, p, faults);
      && Safe(files, t, p, binary, Some(content)) && t.error.None?
      && At(End(files, t), p.newBin) == At(files, p.newBin) && p.temp !in End(files, t)
  {
    var done := (files - {p.temp})[p.target := files[p.temp]];
    assert Commit(files, p, faults).states == [done];
    assert OthersUntouched(done, files, p);
  }

  lemma RestoredIsSafe(files: Files, p: Places, faults: Faults, binary: File, content: string)
    requires p.Distinct() && Has(files, p.Backup(), binary) && (Has(files, p.target, binary) || p.target !in files)
    requires !faults.finalOk && faults.restoreOk
    ensures
      var t := Commit(files, p, faults);
      && Safe(files, t, p, binary, Some(content)) && t.error.Some?
        && t.error.value in {ReplaceFailed, NewBinaryNotFound}
      && At(End(files, t), p.newBin) == At(files, p.newBin) && (p.temp in End(files, t) ==> !faults.cleanupOk)
  {
    var restored := (files - {p.Backup()})[p.target := files[p.Backup()]];
    assert OthersUntouched(restored, files, p) && OthersUntouched(restored - {p.temp}, files, p);
    assert Has(restored, p.target, binary) && Has(restored - {p.temp}, p.target, binary);
    assert forall s :: s in Commit(files, p, faults).states ==> s == restored || s == restored - {p.temp};
  }

  lemma UnrestoredIsSafe(files: Files, p: Places, faults: Faults, binary: File, content: string)
    requires p.Distinct() && Has(files, p.Backup(), binary) && (Has(files, p.target, binary) || p.target !in files)
    requires !faults.finalOk && !faults.restoreOk
    ensures
      var t := Commit(files, p, faults);
      && Safe(files, t, p, binary, Some(content)) && t.error == Some(BackupRestoreFailed)
      && At(End(files, t), p.newBin) == At(files, p.newBin) && (p.temp in End(files, t) ==> !faults.cleanupOk)
  {
    AbortIsQuiet(files, p, faults, BackupRestoreFailed);
    assert forall s :: s in Commit(files, p, faults).states ==> s == files - {p.temp};
  }

  lemma CommitIsSafe(files: Files, p: Places, faults: Faults, binary: File, content: string)
    requires p.Distinct() && Has(files, p.Backup(), binary) && (Has(files, p.target, binary) || p.target !in files)
    requires Has(files, p.temp, File(content, binary.permissions))
    ensures
      var t := Commit(files, p, faults);
      && Safe(files, t, p, binary, Some(content))
      && At(End(files, t), p.newBin) == At(files, p.newBin)
      && (t.error.None? <==> faults.finalOk)
      && (t.error.Some? ==>
            && (t.error == Some(BackupRestoreFailed) <==> !faults.restoreOk)
            && t.error.value in {BackupRestoreFailed, ReplaceFailed, NewBinaryNotFound})
      && (p.temp in End(files, t) ==> t.error.Some? && !faults.cleanupOk)
  {
    if faults.finalOk {
      FinishedIsSafe(files, p, faults, binary, content);
    } else if faults.restoreOk {
      RestoredIsSafe(files, p, faults, binary, content);
    } else {
      UnrestoredIsSafe(files, p, faults, binary, content);
    }
  }

  /** Steps that leave the target and the backup alone can be put before a safe rest. */
  lemma QuietThenSafe(files: Files, states: seq<Files>, t: Trace, p: Places, binary: File, content: Option<string>)
    requires Has(files, p.Backup(), binary) && (Has(files, p.target, binary) || p.target !in files)
    requires forall s :: s in states ==> Quiet(s, files, p)
    requires Safe(Last(files, states), t, p, binary, content)
    ensures Safe(files, After(states, t), p, binary, content)
    ensures End(files, After(states, t)) == End(Last(files, states), t)
  {
    var mid := Last(files, states);
    assert states != [] ==> mid in states;
    assert Quiet(mid, files, p);
    forall s | s in After(states, t).states
      ensures OldKept(s, p, binary) && OthersUntouched(s, files, p)
      ensures p.target in s ==> OldOrNew(s, p, binary, content)
      ensures Has(files, p.target, binary) ==> p.target in s
    {
      if s !in states {
        assert s in t.states;
      }
    }
  }

  lemma InstallIsSafe(files: Files, p: Places, faults: Faults, binary: File)
    requires p.Apart(files) && Has(files, p.Backup(), binary) && (Has(files, p.target, binary) || p.target !in files)
    ensures
      var t := Install(files, p, binary.permissions, faults);
      && Safe(files, t, p, binary, NewContent(files, p))
      && At(End(files, t), p.newBin) == (if Moved(files, p, faults) then None else At(files, p.newBin))
      && (t.error.None? <==> Staged(files, p, faults) && faults.finalOk)
      && (t.error.Some? ==>
            (t.error.value in {ReplaceFailed, NewBinaryNotFound} <==> Staged(files, p, faults) && faults.restoreOk))
      && (p.temp in End(files, t) ==> t.error.Some? && !faults.cleanupOk)
  {
    var staged := Stage(files, p, binary.permissions, faults);
    var ready := End(files, staged);
    StageIsQuiet(files, p, binary.permissions, faults);
    assert staged.states != [] ==> ready in staged.states;
    if staged.error.None? {
      CommitIsSafe(ready, p, faults, binary, files[p.newBin].content);
      QuietThenSafe(files, staged.states, Commit(ready, p, faults), p, binary, NewContent(files, p));
    } else {
      assert Quiet(ready, files, p);
      assert forall s :: s in staged.states ==> OldKept(s, p, binary);
    }
  }

  /** Until the backup is complete the target is as it was; then it is there, or moved to the backup. */
  lemma BackUpIsSafe(files: Files, platform: Platform, p: Places, faults: Faults)
    requires p.Apart(files) && p.target in files
    ensures
      var states := BackUp(files, platform, p, faults);
      var begun := Last(files, states);
      && (forall s :: s in states ==>
            && (At(s, p.target) == At(files, p.target) || s == begun)
            && OthersUntouched(s, files, p) && At(s, p.newBin) == At(files, p.newBin) && p.temp !in s)
      && (faults.metadataOk && !BackedUp(files, platform, p, faults) ==> At(begun, p.target) == At(files, p.target))
      && (BackedUp(files, platform, p, faults) ==>
            && Has(begun, p.Backup(), files[p.target])
            && At(begun, p.target) == (if platform == Unix then At(files, p.target) else None))
  {
  }

  lemma EarlyEnd(files: Files, platform: Platform, p: Places, faults: Faults)
    requires p.Apart(files) && p.target in files && !BackedUp(files, platform, p, faults)
    ensures
      var t := Replace(files, platform, p, faults);
      && t.error.Some? && t.error.value in {Metadata, BackupCreationFailed}
      && At(End(files, t), p.target) == At(files, p.target)
      && At(End(files, t), p.newBin) == At(files, p.newBin)
      && p.temp !in End(files, t)
  {
  }

  /** Once the backup is made, the replacement ends where the installation ends. */
  lemma LateEnd(files: Files, platform: Platform, p: Places, faults: Faults)
    requires p.Apart(files) && p.target in files && BackedUp(files, platform, p, faults)
    ensures
      var t := Replace(files, platform, p, faults);
      var begun := Last(files, BackUp(files, platform, p, faults));
      var rest := Install(begun, p, files[p.target].permissions, faults);
      && t.error == rest.error && End(files, t) == End(begun, rest)
      && Safe(begun, rest, p, files[p.target], NewContent(files, p))
      && At(End(files, t), p.newBin) == (if Moved(files, p, faults) then None else At(files, p.newBin))
      && (t.error.None? <==> Staged(files, p, faults) && faults.finalOk)
      && (t.error.Some? ==>
            (t.error.value in {ReplaceFailed, NewBinaryNotFound} <==> Staged(files, p, faults) && faults.restoreOk))
      && (p.temp in End(files, t) ==> t.error.Some? && !faults.cleanupOk)
  {
    var states := BackUp(files, platform, p, faults);
    var begun := Last(files, states);
    BackUpIsSafe(files, platform, p, faults);
    assert states != [] ==> begun in states;
    assert At(begun, p.newBin) == At(files, p.newBin) && p.temp !in begun;
    InstallIsSafe(begun, p, faults, files[p.target]);
    InTwoParts([], files, states, Install(begun, p, files[p.target].permissions, faults).states);
  }

  /** Every state of a replacement is one of the backup or one of the installation. */
  lemma StatesOfReplace(files: Files, platform: Platform, p: Places, faults: Faults, s: Files)
    requires p.Apart(files) && p.target in files && s in Replace(files, platform, p, faults).states
    ensures
      var begun := Last(files, BackUp(files, platform, p, faults));
      || (OthersUntouched(s, files, p) && Has(s, p.target, files[p.target]))
      || (BackedUp(files, platform, p, faults) && s == begun && OthersUntouched(s, files, p))
      || (BackedUp(files, platform, p, faults) && OthersUntouched(begun, files, p)
          && s in Install(begun, p, files[p.target].permissions, faults).states)
  {
    var states := BackUp(files, platform, p, faults);
    BackUpIsSafe(files, platform, p, faults);
    assert states != [] ==> Last(files, states) in states;
  }

  /** Wherever the machine stops and whatever fails, on both platforms the old binary is at the target or
      at its backup, what is at the target (if anything) is the old binary or the complete new one, and
      no other file is touched. */
  lemma OldBinaryIsNeverLost(files: Files, platform: Platform, p: Places, faults: Faults)
    requires p.Apart(files) && p.target in files
    ensures forall s :: s in Replace(files, platform, p, faults).states ==>
              && OldKept(s, p, files[p.target]) && OthersUntouched(s, files, p)
              && (p.target in s ==> OldOrNew(s, p, files[p.target], NewContent(files, p)))
  {
    BackUpIsSafe(files, platform, p, faults);
    if BackedUp(files, platform, p, faults) {
      LateEnd(files, platform, p, faults);
    } else {
      EarlyEnd(files, platform, p, faults);
    }
    forall s | s in Replace(files, platform, p, faults).states
      ensures OldKept(s, p, files[p.target]) && OthersUntouched(s, files, p)
      ensures p.target in s ==> OldOrNew(s, p, files[p.target], NewContent(files, p))
    {
      StatesOfReplace(files, platform, p, faults, s);
    }
  }

  /** On Unix the target is at every instant the old binary or the complete new one, and after every error
      it is the old one. */
  lemma UnixTargetIsAlwaysUsable(files: Files, p: Places, faults: Faults)
    requires p.Apart(files) && p.target in files
    ensures
      var t := Replace(files, Unix, p, faults);
      && (forall s :: s in t.states ==> OldOrNew(s, p, files[p.target], NewContent(files, p)))
      && (t.error.Some? ==> Has(End(files, t), p.target, files[p.target]))
  {
    BackUpIsSafe(files, Unix, p, faults);
    if BackedUp(files, Unix, p, faults) {
      LateEnd(files, Unix, p, faults);
    } else {
      EarlyEnd(files, Unix, p, faults);
    }
    forall s | s in Replace(files, Unix, p, faults).states
      ensures OldOrNew(s, p, files[p.target], NewContent(files, p))
    {
      StatesOfReplace(files, Unix, p, faults, s);
    }
  }

  /** The replacement succeeds exactly when the backup is made, the new binary is staged and the final
      rename works; then it is complete, and nothing is left over unless the clean-up of an error failed. */
  lemma SuccessExactly(files: Files, platform: Platform, p: Places, faults: Faults)
    requires p.Apart(files)
    ensures
      var t := Replace(files, platform, p, faults);
      && (t.error.None? <==> BackedUp(files, platform, p, faults) && Staged(files, p, faults) && faults.finalOk)
      && (t.error.None? ==> Replaced(End(files, t), p, files[p.target], NewContent(files, p)))
      && (p.temp in End(files, t) ==> t.error.Some? && !faults.cleanupOk)
  {
    if p.target in files {
      if BackedUp(files, platform, p, faults) {
        LateEnd(files, platform, p, faults);
      } else {
        EarlyEnd(files, platform, p, faults);
      }
    }
  }

  /** On Windows an error leaves the old binary in place exactly if the target was never vacated or the
      failed final rename was rolled back; otherwise the target is missing and only the backup is left. */
  lemma WindowsErrorExactly(files: Files, p: Places, faults: Faults)
    requires p.Apart(files) && p.target in files
    requires Replace(files, Windows, p, faults).error.Some?
    ensures
      var end := End(files, Replace(files, Windows, p, faults));
      && (Has(end, p.target, files[p.target]) <==>
            !BackedUp(files, Windows, p, faults) || (Staged(files, p, faults) && faults.restoreOk))
      && (!Has(end, p.target, files[p.target]) ==> p.target !in end && Has(end, p.Backup(), files[p.target]))
  {
    BackUpIsSafe(files, Windows, p, faults);
    if BackedUp(files, Windows, p, faults) {
      LateEnd(files, Windows, p, faults);
    } else {
      EarlyEnd(files, Windows, p, faults);
    }
  }

  /** Whether it succeeds or fails, a replacement leaves the new binary where it was exactly if it had not been moved
      into the staging file: after a failure a moved one is thrown away with it. */
  lemma NewBinaryAfterFailure(files: Files, platform: Platform, p: Places, faults: Faults)
    requires p.Apart(files) && p.newBin in files
    ensures
      var end := End(files, Replace(files, platform, p, faults));
      Has(end, p.newBin, files[p.newBin]) <==> !(BackedUp(files, platform, p, faults) && Moved(files, p, faults))
  {
    if p.target in files {
      if BackedUp(files, platform, p, faults) {
        LateEnd(files, platform, p, faults);
      } else {
        EarlyEnd(files, platform, p, faults);
      }
    }
  }

  /** Which error a replacement ends with, by the first call that fails. */
  lemma ErrorExactly(files: Files, platform: Platform, p: Places, faults: Faults)
    requires p.Apart(files)
    ensures
      SelfReplace(files, platform, p, faults).error
      == if p.newBin !in files then Some(NewBinaryNotFound)
         else if !faults.metadataOk || p.target !in files then Some(Metadata)
         else if (platform == Unix && !faults.backupCopy.Complete?) || (platform == Windows && !faults.vacateOk) then
           Some(BackupCreationFailed)
         else if p.target.file.None? && p.target.directory == [] then Some(NoParentDirectory)
         else if !faults.tempOk || !(faults.moveOk || faults.stageCopy.Complete?) || !faults.permissionsOk then
           Some(TempCopyFailed)
         else if faults.finalOk then None
         else if !faults.restoreOk then Some(BackupRestoreFailed)
         else if faults.finalMissing then Some(NewBinaryNotFound) else Some(ReplaceFailed)
  {
    if p.newBin in files && p.target in files && BackedUp(files, platform, p, faults) {
      LateEnd(files, platform, p, faults);
      BackUpIsSafe(files, platform, p, faults);
      var begun := Last(files, BackUp(files, platform, p, faults));
      assert BackUp(files, platform, p, faults) != [] ==> begun in BackUp(files, platform, p, faults);
      InstallError(begun, p, files[p.target].permissions, faults);
    }
  }

  lemma InstallError(files: Files, p: Places, permissions: nat, faults: Faults)
    requires p.Apart(files) && p.Backup() in files && p.newBin in files
    ensures
      Install(files, p, permissions, faults).error
      == if !HasParent(p.target) then Some(NoParentDirectory)
         else if !Staged(files, p, faults) then Some(TempCopyFailed)
         else if faults.finalOk then None
         else if !faults.restoreOk then Some(BackupRestoreFailed)
         else if faults.finalMissing then Some(NewBinaryNotFound) else Some(ReplaceFailed)
  {
    var staged := Stage(files, p, permissions, faults);
    var ready := End(files, staged);
    StageIsQuiet(files, p, permissions, faults);
    assert staged.states != [] ==> ready in staged.states;
    if staged.error.None? {
      assert Quiet(ready, files, p);
      CommitError(ready, p, faults);
    } else if HasParent(p.target) {
      StageError(files, p, permissions, faults);
    }
  }

  lemma StageError(files: Files, p: Places, permissions: nat, faults: Faults)
    requires HasParent(p.target) && Stage(files, p, permissions, faults).error.Some?
    ensures Stage(files, p, permissions, faults).error == Some(TempCopyFailed)
  {
  }

  lemma CommitError(files: Files, p: Places, faults: Faults)
    requires p.temp in files && p.Backup() in files
    ensures
      Commit(files, p, faults).error
      == if faults.finalOk then None
         else if !faults.restoreOk then Some(BackupRestoreFailed)
         else if faults.finalMissing then Some(NewBinaryNotFound) else Some(ReplaceFailed)
  {
  }

  // ---- Many attempts ----

  /** One upgrade: a new binary is delivered, and its replacement runs until it ends or the machine stops
      after `stop` changes. */
  datatype Upgrade = Upgrade(newBin: Path, delivered: File, temp: Path, faults: Faults, stop: nat)

  function PlacesOf(target: Path, u: Upgrade): Places {
    Places(target, u.newBin, u.temp)
  }

  function Delivered(files: Files, u: Upgrade): Files {
    files[u.newBin := u.delivered]
  }

  function Upgraded(files: Files, platform: Platform, target: Path, u: Upgrade): Files {
    var states := Replace(Delivered(files, u), platform, PlacesOf(target, u), u.faults).states;
    Last(Delivered(files, u), if u.stop < |states| then states[..u.stop] else states)
  }

  function UpgradedAll(files: Files, platform: Platform, target: Path, upgrades: seq<Upgrade>): Files
    decreases |upgrades|
  {
    if upgrades == [] then files
    else UpgradedAll(Upgraded(files, platform, target, upgrades[0]), platform, target, upgrades[1..])
  }

  predicate ApartEach(files: Files, platform: Platform, target: Path, upgrades: seq<Upgrade>)
    decreases |upgrades|
  {
    upgrades == [] ||
    (&& PlacesOf(target, upgrades[0]).Apart(Delivered(files, upgrades[0]))
     && ApartEach(Upgraded(files, platform, target, upgrades[0]), platform, target, upgrades[1..]))
  }

  /** A complete binary: one of the known contents, with the permissions of the first one. */
  predicate Complete(file: Option<File>, permissions: nat, contents: set<string>) {
    file.Some? && file.value.permissions == permissions && file.value.content in contents
  }

  function Contents(upgrades: seq<Upgrade>): set<string> {
    set u | u in upgrades :: u.delivered.content
  }

  /** What survives: a complete binary at the target, or none there and a complete one in the backup. */
  predicate Survives(files: Files, target: Path, permissions: nat, contents: set<string>) {
    || Complete(At(files, target), permissions, contents)
    || (target !in files && Complete(At(files, BackupPath(target)), permissions, contents))
  }

  lemma UpgradeSurvives(files: Files, platform: Platform, target: Path, u: Upgrade, permissions: nat,
                        contents: set<string>)
    requires PlacesOf(target, u).Apart(Delivered(files, u))
    requires Survives(files, target, permissions, contents)
    ensures
      var after := Upgraded(files, platform, target, u);
      && Survives(after, target, permissions, contents + {u.delivered.content})
      && (platform == Unix && target in files ==> target in after)
      && (target !in files ==> target !in after)
  {
    var p, start := PlacesOf(target, u), Delivered(files, u);
    var states := Replace(start, platform, p, u.faults).states;
    var reached := if u.stop < |states| then states[..u.stop] else states;
    assert At(start, target) == At(files, target) && At(start, p.Backup()) == At(files, p.Backup());
    if target in files {
      OldBinaryIsNeverLost(start, platform, p, u.faults);
      if platform == Unix {
        UnixTargetIsAlwaysUsable(start, p, u.faults);
      }
      assert reached != [] ==> Last(start, reached) in states;
    }
  }

  /** Over any number of upgrades, each failing or cut short anywhere, a complete binary always survives:
      the first one or one that was delivered. On Unix it is always at the target. */
  lemma {:induction false} UpgradesNeverLoseTheBinary(files: Files, platform: Platform, target: Path,
                                                      upgrades: seq<Upgrade>, permissions: nat, contents: set<string>)
    requires ApartEach(files, platform, target, upgrades)
    requires Survives(files, target, permissions, contents)
    ensures
      var after := UpgradedAll(files, platform, target, upgrades);
      && Survives(after, target, permissions, contents + Contents(upgrades))
      && (platform == Unix && target in files ==> target in after)
    decreases |upgrades|
  {
    if upgrades == [] {
      assert contents + Contents(upgrades) == contents;
    } else {
      var u, rest := upgrades[0], upgrades[1..];
      UpgradeSurvives(files, platform, target, u, permissions, contents);
      UpgradesNeverLoseTheBinary(Upgraded(files, platform, target, u), platform, target, rest, permissions,
                                 contents + {u.delivered.content});
      assert upgrades == [u] + rest;
      assert contents + Contents(upgrades) == contents + {u.delivered.content} + Contents(rest);
    }
  }

  /** A target that has gone missing (possible on Windows) never comes back by itself: each further upgrade
      fails and leaves the backup as it is. */
  lemma {:induction false} MissingTargetStaysMissing(files: Files, platform: Platform, target: Path,
                                                     upgrades: seq<Upgrade>)
    requires ApartEach(files, platform, target, upgrades) && target !in files
    ensures
      var after := UpgradedAll(files, platform, target, upgrades);
      target !in after && At(after, BackupPath(target)) == At(files, BackupPath(target))
    decreases |upgrades|
  {
    if upgrades != [] {
      var next := Upgraded(files, platform, target, upgrades[0]);
      assert next == Delivered(files, upgrades[0]);
      MissingTargetStaysMissing(next, platform, target, upgrades[1..]);
    }
  }

  // ---- The code that performs it ----

  /** A file system that records each state it goes through. */
  class FileSystem {
    var files: Files
    ghost var history: seq<Files>

    constructor (files: Files)
      ensures this.files == files && history == []
    {
      this.files := files;
      history := [];
    }

    twostate predicate Went(states: seq<Files>)
      reads this
    {
      history == old(history) + states && files == Last(old(files), states)
    }

    ghost method Record()
      modifies this`history
      ensures history == old(history) + [files]
    {
      history := history + [files];
    }

    method Rename(from: Path, to: Path, ok: bool) returns (renamed: bool)
      modifies this
      ensures Went(RenameStates(old(files), from, to, ok))
      ensures renamed <==> ok && from in old(files)
    {
      renamed := ok && from in files;
      if renamed {
        files := (files - {from})[to := files[from]];
        Record();
      }
    }

    method Copy(from: Path, to: Path, fault: CopyFault) returns (copied: bool)
      modifies this
      ensures Went(CopyStates(old(files), from, to, fault))
      ensures copied <==> CopyOk(old(files), from, fault)
    {
      copied := false;
      if from in files && !fault.Refused? {
        var file, before := files[from], files;
        files := before[to := fault.partial];
        Record();
        if fault.Complete? {
          files := before[to := file];
          Record();
          copied := true;
        }
      }
    }

    method Create(path: Path)
      modifies this
      ensures Went([old(files)[path := EMPTY_FILE]])
    {
      files := files[path := EMPTY_FILE];
      Record();
    }

    method SetPermissions(path: Path, permissions: nat, ok: bool) returns (changed: bool)
      modifies this
      ensures Went(PermissionStates(old(files), path, permissions, ok))
      ensures changed <==> ok && path in old(files)
    {
      changed := ok && path in files;
      if changed {
        files := files[path := files[path].(permissions := permissions)];
        Record();
      }
    }

    method Remove(path: Path, ok: bool)
      modifies this
      ensures Went(RemoveStates(old(files), path, ok))
    {
      if ok && path in files {
        files := files - {path};
        Record();
      }
    }
  }

  /** The replacer of the binary at `target`. Each method is proved to go through exactly the states of
      its specification, in that order. */
  class BinaryReplacer {
    const target: Path
    const platform: Platform
    const disk: FileSystem

    constructor (target: Path, platform: Platform, disk: FileSystem)
      ensures this.target == target && this.platform == platform && this.disk == disk
    {
      this.target := target;
      this.platform := platform;
      this.disk := disk;
    }

    /** Dropping the handle of the staging file on the way out. */
    method Abort(temp: Path, faults: Faults, error: ReplaceError) returns (result: Option<ReplaceError>)
      modifies disk
      ensures disk.Went(Aborted(old(disk.files), temp, faults, error).states)
      ensures result == Some(error)
    {
      disk.Remove(temp, faults.cleanupOk);
      result := Some(error);
    }

    method PutNewBinary(p: Places, faults: Faults) returns (staged: bool)
      modifies disk
      ensures disk.Went(PutStates(old(disk.files), p, faults))
      ensures staged <==> PutOk(old(disk.files), p, faults)
    {
      staged := disk.Rename(p.newBin, p.temp, faults.moveOk);
      if !staged {
        staged := disk.Copy(p.newBin, p.temp, faults.stageCopy);
      }
    }

    method GivePermissions(p: Places, permissions: nat, faults: Faults) returns (result: Option<ReplaceError>)
      modifies disk
      ensures disk.Went(Allow(old(disk.files), p, permissions, faults).states)
      ensures result == Allow(old(disk.files), p, permissions, faults).error
    {
      var allowed := disk.SetPermissions(p.temp, permissions, faults.permissionsOk);
      if allowed {
        result := None;
      } else {
        result := Abort(p.temp, faults, TempCopyFailed);
      }
    }

    method FillTempFile(p: Places, permissions: nat, faults: Faults) returns (result: Option<ReplaceError>)
      modifies disk
      ensures disk.Went(Fill(old(disk.files), p, permissions, faults).states)
      ensures result == Fill(old(disk.files), p, permissions, faults).error
    {
      var staged := PutNewBinary(p, faults);
      ghost var filled := disk.files;
      if staged {
        result := GivePermissions(p, permissions, faults);
        InTwoParts(old(disk.history), old(disk.files), PutStates(old(disk.files), p, faults),
                   Allow(filled, p, permissions, faults).states);
      } else {
        result := Abort(p.temp, faults, TempCopyFailed);
        InTwoParts(old(disk.history), old(disk.files), PutStates(old(disk.files), p, faults),
                   Aborted(filled, p.temp, faults, TempCopyFailed).states);
      }
    }

    method CreateTempFile(p: Places, permissions: nat, faults: Faults) returns (result: Option<ReplaceError>)
      requires p.target == target
      modifies disk
      ensures disk.Went(Stage(old(disk.files), p, permissions, faults).states)
      ensures result == Stage(old(disk.files), p, permissions, faults).error
    {
      if !HasParent(target) {
        return Some(NoParentDirectory);
      }
      if !faults.tempOk {
        return Some(TempCopyFailed);
      }
      disk.Create(p.temp);
      ghost var created := disk.files;
      result := FillTempFile(p, permissions, faults);
      InTwoParts(old(disk.history), old(disk.files), [created], Fill(created, p, permissions, faults).states);
    }

    method FinalRename(p: Places, faults: Faults) returns (result: Option<ReplaceError>)
      requires p.target == target
      modifies disk
      ensures disk.Went(Commit(old(disk.files), p, faults).states)
      ensures result == Commit(old(disk.files), p, faults).error
    {
      var done := disk.Rename(p.temp, target, faults.finalOk);
      if done {
        return None;
      }
      result := RollBack(p, faults);
    }

    method RollBack(p: Places, faults: Faults) returns (result: Option<ReplaceError>)
      requires p.target == target && !(faults.finalOk && p.temp in disk.files)
      modifies disk
      ensures disk.Went(Commit(old(disk.files), p, faults).states)
      ensures result == Commit(old(disk.files), p, faults).error
    {
      var restored := disk.Rename(p.Backup(), target, faults.restoreOk);
      if !restored {
        result := Abort(p.temp, faults, BackupRestoreFailed);
      } else {
        ghost var states := [disk.files];
        var error := if faults.finalMissing then NewBinaryNotFound else ReplaceFailed;
        result := Abort(p.temp, faults, error);
        InTwoParts(old(disk.history), old(disk.files), states, Aborted(states[0], p.temp, faults, error).states);
      }
    }

    method CreateBackup(p: Places, faults: Faults) returns (made: bool)
      requires p.target == target && target in disk.files && faults.metadataOk
      modifies disk
      ensures disk.Went(BackUp(old(disk.files), platform, p, faults))
      ensures made <==> BackedUp(old(disk.files), platform, p, faults)
    {
      match platform
      case Unix => made := disk.Copy(target, p.Backup(), faults.backupCopy);
      case Windows => made := disk.Rename(target, p.Backup(), faults.vacateOk);
    }

    method InstallNewBinary(p: Places, permissions: nat, faults: Faults) returns (result: Option<ReplaceError>)
      requires p.target == target
      modifies disk
      ensures disk.Went(Install(old(disk.files), p, permissions, faults).states)
      ensures result == Install(old(disk.files), p, permissions, faults).error
    {
      result := CreateTempFile(p, permissions, faults);
      if result.None? {
        ghost var staged := disk.files;
        result := FinalRename(p, faults);
        InTwoParts(old(disk.history), old(disk.files), Stage(old(disk.files), p, permissions, faults).states,
                   Commit(staged, p, faults).states);
      }
    }

    method ReplaceBinary(p: Places, faults: Faults) returns (result: Option<ReplaceError>)
      requires p.target == target
      modifies disk
      ensures disk.Went(Replace(old(disk.files), platform, p, faults).states)
      ensures result == Replace(old(disk.files), platform, p, faults).error
    {
      if !faults.metadataOk || target !in disk.files {
        return Some(Metadata);
      }
      var permissions := disk.files[target].permissions;
      var made := CreateBackup(p, faults);
      if !made {
        return Some(BackupCreationFailed);
      }
      ghost var begun := disk.files;
      result := InstallNewBinary(p, permissions, faults);
      InTwoParts(old(disk.history), old(disk.files), BackUp(old(disk.files), platform, p, faults),
                 Install(begun, p, permissions, faults).states);
    }

    /** The staging file's name is drawn here. With a name nobody uses, whatever fails and wherever it stops,
        the old binary is kept and no partial one is at the target. */
    method ReplaceSelf(newBin: Path, random: string, faults: Faults) returns (result: Option<ReplaceError>)
      modifies disk
      ensures
        var p, start := PlacesFor(target, newBin, random), old(disk.files);
        && disk.Went(SelfReplace(start, platform, p, faults).states)
        && result == SelfReplace(start, platform, p, faults).error
        && (Unused(start, target, newBin, random) && target in start ==>
              forall s :: s in disk.history[|old(disk.history)|..] ==>
                && OldKept(s, p, start[target]) && OthersUntouched(s, start, p)
                && (target in s ==> OldOrNew(s, p, start[target], NewContent(start, p))))
    {
      ghost var p, start := PlacesFor(target, newBin, random), disk.files;
      if Unused(start, target, newBin, random) && target in start {
        PlacesAreApart(start, target, newBin, random);
        OldBinaryIsNeverLost(start, platform, p, faults);
      }
      if newBin !in disk.files {
        return Some(NewBinaryNotFound);
      }
      result := ReplaceBinary(PlacesFor(target, newBin, random), faults);
      assert disk.history[|old(disk.history)|..] == Replace(start, platform, p, faults).states;
    }
  }
}

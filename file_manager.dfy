/**
 Saving and opening diagram files (`src/utils/fileManager.ts`). The save and
 open dialogs are the parameter `chosen` (the path picked, or None when the
 dialog is dismissed), the disk is the parameters `write` and `read`, and the
 random id of an opened buffer is the parameter `freshId`.
 */
module FileManager {
  import opened Wrappers
  import opened Text
  import opened CodeStore

  // ---------------------------------------------------------------------------
  // File names
  // ---------------------------------------------------------------------------

  predicate IsSeparator(c: char) {
    c == '/' || c == '\\'
  }

  /** `path.split(/[/\\]/).pop()`: the text after the last `/` or `\`. */
  function LastSegment(path: string): string {
    if path == [] || IsSeparator(path[|path| - 1]) then []
    else LastSegment(path[..|path| - 1]) + [path[|path| - 1]]
  }

  /** The last segment is the suffix of the path that holds no separator and is
      either the whole path or comes right after a separator. */
  lemma {:induction false} LastSegmentIsFinalPiece(path: string)
    ensures var b := LastSegment(path);
      && |b| <= |path| && path[|path| - |b|..] == b
      && (forall i :: 0 <= i < |b| ==> !IsSeparator(b[i]))
      && (|b| < |path| ==> IsSeparator(path[|path| - |b| - 1]))
  {
    if path != [] && !IsSeparator(path[|path| - 1]) {
      var init := path[..|path| - 1];
      LastSegmentIsFinalPiece(init);
      var b := LastSegment(init);
      assert path[|path| - |b| - 1..] == init[|init| - |b|..] + [path[|path| - 1]];
      if |b| < |init| {
        assert path[|path| - |b| - 2] == init[|init| - |b| - 1];
      }
    }
  }

  /** The name a saved buffer takes: `pop() || 'Untitled.mmd'`. */
  function SaveName(path: string): string {
    var b := LastSegment(path);
    if b == [] then "Untitled.mmd" else b
  }

  /** The name an opened buffer takes: `pop() || 'Unknown.mmd'`. */
  function OpenName(path: string): string {
    var b := LastSegment(path);
    if b == [] then "Unknown.mmd" else b
  }

  /** A path that ends in a separator has an empty last segment, so both names
      fall back to their defaults; a file name after any directory is kept. */
  lemma NamesOfPaths(dir: string, sep: char, name: string)
    requires IsSeparator(sep)
    requires name != [] && forall i :: 0 <= i < |name| ==> !IsSeparator(name[i])
    ensures SaveName(dir + [sep]) == "Untitled.mmd" && OpenName(dir + [sep]) == "Unknown.mmd"
    ensures SaveName(dir + [sep] + name) == name && OpenName(dir + [sep] + name) == name
  {
    NameAfterSeparator(dir + [sep], name);
  }

  lemma {:induction false} NameAfterSeparator(prefix: string, name: string)
    requires prefix != [] && IsSeparator(prefix[|prefix| - 1])
    requires forall i :: 0 <= i < |name| ==> !IsSeparator(name[i])
    ensures LastSegment(prefix + name) == name
  {
    if name == [] {
      assert prefix + name == prefix;
    } else {
      var init := name[..|name| - 1];
      NameAfterSeparator(prefix, init);
      assert (prefix + name)[..|prefix + name| - 1] == prefix + init;
      assert init + [name[|name| - 1]] == name;
    }
  }

  // ---------------------------------------------------------------------------
  // The legacy layout token
  // ---------------------------------------------------------------------------

  /** The marker older versions appended to saved diagrams. */
  const LegacyToken: string := "%% MERMAID_MASTER_LAYOUT="

  /** `content.split(token)[0].trim()` when the token is included, else the
      content itself. */
  function StripLegacyLayout(content: string): string {
    match IndexOf(content, LegacyToken)
    case None => content
    case Some(k) => Trim(content[..k])
  }

  /** Content without the token is kept verbatim. */
  lemma LegacyFreeKept(content: string)
    requires forall j: nat :: !OccursAt(content, LegacyToken, j)
    ensures StripLegacyLayout(content) == content
  {
  }

  /** With the token, only the trimmed text before its first occurrence is kept,
      whatever follows it. */
  lemma LegacyLayoutDropped(before: string, rest: string)
    requires forall j: nat :: !OccursAt(before, LegacyToken, j)
    ensures StripLegacyLayout(before + LegacyToken + rest) == Trim(before)
  {
    var s := before + LegacyToken + rest;
    assert s[|before|..|before| + |LegacyToken|] == LegacyToken;
    assert OccursAt(s, LegacyToken, |before|);
    forall j: nat | j < |before|
      ensures !OccursAt(s, LegacyToken, j)
    {
      assert s == before + (LegacyToken + rest);
      PrefixOccurrence(before, LegacyToken + rest, j);
    }
    assert s[..|before|] == before;
  }

  /** No occurrence of the token starts inside `before` when `before` has none
      and the token follows it. */
  lemma PrefixOccurrence(before: string, tail: string, j: nat)
    requires j < |before|
    requires forall i: nat :: !OccursAt(before, LegacyToken, i)
    requires |tail| >= |LegacyToken| && tail[..|LegacyToken|] == LegacyToken
    ensures !OccursAt(before + tail, LegacyToken, j)
  {
    var s := before + tail;
    var n := |LegacyToken|;
    if j + n <= |before| {
      assert !OccursAt(before, LegacyToken, j);
      assert s[j..j + n] == before[j..j + n];
    } else if j + n <= |s| {
      // the window overlaps the token that follows `before` at offset d
      var d := |before| - j;
      var window := s[j..j + n];
      assert window[d] == tail[0] == '%';
      if d == 1 {
        assert window[2] == tail[1] == '%' && LegacyToken[2] == ' ';
      } else {
        assert LegacyToken[d] != '%';
      }
    }
  }

  /** The result never contains the token. */
  lemma LegacyStripTokenFree(content: string)
    ensures forall j: nat :: !OccursAt(StripLegacyLayout(content), LegacyToken, j)
  {
    match IndexOf(content, LegacyToken)
    case None =>
    case Some(k) =>
      BeforeFirstTokenFree(content, k);
      TrimmedTokenFree(content[..k]);
  }

  lemma TrimmedTokenFree(text: string)
    requires forall j: nat :: !OccursAt(text, LegacyToken, j)
    ensures forall j: nat :: !OccursAt(Trim(text), LegacyToken, j)
  {
    var a := TrimIsSlice(text);
    InfixKeepsAbsence(text, Trim(text), LegacyToken, a);
  }

  /** The text before the first occurrence holds none. */
  lemma BeforeFirstTokenFree(content: string, k: nat)
    requires IndexOf(content, LegacyToken) == Some(k)
    ensures forall j: nat :: !OccursAt(content[..k], LegacyToken, j)
  {
    var before := content[..k];
    forall j: nat | j + |LegacyToken| <= |before|
      ensures !OccursAt(before, LegacyToken, j)
    {
      assert !OccursAt(content, LegacyToken, j);
      assert before[j..j + |LegacyToken|] == content[j..j + |LegacyToken|];
    }
  }

  /** Stripping twice is stripping once. */
  lemma LegacyStripIdempotent(content: string)
    ensures StripLegacyLayout(StripLegacyLayout(content)) == StripLegacyLayout(content)
  {
    LegacyStripTokenFree(content);
    LegacyFreeKept(StripLegacyLayout(content));
  }

  // ---------------------------------------------------------------------------
  // saveFile
  // ---------------------------------------------------------------------------

  /** How `writeTextFile` ended. */
  datatype WriteOutcome = WriteOk | WriteFailed(error: string)

  /** A file put on disk: where, and what. */
  datatype FileWrite = FileWrite(path: string, code: string)

  /** What a save did: the session after it, the file it wrote, the alert it
      showed. */
  datatype SaveResult = SaveResult(session: Session, written: Option<FileWrite>, alert: Option<string>)

  const SaveFailedAlert: string := "Failed to save file: "

  /** Nothing written, nothing shown, nothing changed. */
  function NoSave(s: Session): SaveResult {
    SaveResult(s, None, None)
  }

  /** The write of the active buffer's code to `path`, and `markSaved` after it
      when it succeeds. */
  function WriteStep(s: Session, id: string, code: string, path: string,
                     write: (string, string) -> WriteOutcome): SaveResult {
    match write(path, code)
    case WriteOk => SaveResult(Saved(s, id), Some(FileWrite(path, code)), None)
    case WriteFailed(e) => SaveResult(s, None, Some(SaveFailedAlert + e))
  }

  /** The specification of `saveFile`. */
  function SaveSpec(s: Session, chosen: Option<string>, write: (string, string) -> WriteOutcome): SaveResult {
    match ActiveIndex(s)
    case None => NoSave(s)
    case Some(k) =>
      var f := s.files[k];
      if Truthy(f.path) && !f.isDirty then NoSave(s)
      else if Truthy(f.path) then WriteStep(s, f.id, f.code, f.path.value, write)
      else if !Truthy(chosen) then NoSave(s)
      else WriteStep(PathBound(s, f.id, chosen.value, SaveName(chosen.value)), f.id, f.code, chosen.value, write)
  }

  /** `saveFile`, on the code store: the same decisions as `SaveSpec`, taken
      step by step in the order of the source (snapshot, skip checks, dialog,
      `setFilePath`, write, `markSaved`). */
  method SaveFile(store: Store, chosen: Option<string>, write: (string, string) -> WriteOutcome)
    returns (written: Option<FileWrite>, alert: Option<string>)
    modifies store
    ensures var r := SaveSpec(old(store.State()), chosen, write);
      store.State() == r.session && written == r.written && alert == r.alert
    ensures store.chartTheme == old(store.chartTheme)
  {
    var found := ActiveIndex(store.State());
    if found.None? {
      return None, None;
    }
    var activeFile := store.files[found.value];
    if Truthy(activeFile.path) && !activeFile.isDirty {
      return None, None;
    }
    var savePath := activeFile.path;
    if !Truthy(savePath) {
      if !Truthy(chosen) {
        return None, None;
      }
      savePath := chosen;
      store.SetFilePath(activeFile.id, savePath.value, SaveName(savePath.value));
    }
    match write(savePath.value, activeFile.code)
    case WriteOk =>
      store.MarkSaved(activeFile.id);
      written, alert := Some(FileWrite(savePath.value, activeFile.code)), None;
    case WriteFailed(e) =>
      written, alert := None, Some(SaveFailedAlert + e);
  }

  /** A save without an active buffer, of a clean buffer that has a path, or
      whose save dialog is dismissed changes nothing, writes nothing and shows
      nothing. */
  lemma SaveSkipped(s: Session, chosen: Option<string>, write: (string, string) -> WriteOutcome)
    requires ActiveIndex(s).None? ||
      (var f := s.files[ActiveIndex(s).value]; (Truthy(f.path) && !f.isDirty) || (!Truthy(f.path) && !Truthy(chosen)))
    ensures SaveSpec(s, chosen, write) == NoSave(s)
  {
  }

  /** A successful save writes the active buffer's code to its path (or to the
      chosen path, which it then has) and leaves it clean, together with every
      buffer that shares the path; the session stays valid. */
  lemma SaveWritesActive(s: Session, chosen: Option<string>, write: (string, string) -> WriteOutcome)
    requires Valid(s)
    requires SaveSpec(s, chosen, write).written.Some?
    ensures var r, k := SaveSpec(s, chosen, write), ActiveIndex(s).value;
      var w := r.written.value;
      && w.code == s.files[k].code
      && Truthy(Some(w.path))
      && (if Truthy(s.files[k].path) then w.path == s.files[k].path.value else Some(w.path) == chosen)
      && Valid(r.session) && r.alert.None?
      && r.session.files[k].path == Some(w.path) && !r.session.files[k].isDirty
      && r.session.files[k].code == w.code
      && forall i :: 0 <= i < |s.files| && r.session.files[i].path == Some(w.path) ==>
           !r.session.files[i].isDirty && r.session.files[i].code == w.code
  {
    var k := ActiveIndex(s).value;
    var f := s.files[k];
    var path := if Truthy(f.path) then f.path.value else chosen.value;
    var bound := if Truthy(f.path) then s else PathBound(s, f.id, chosen.value, SaveName(chosen.value));
    if !Truthy(f.path) {
      PathBoundEffect(s, f.id, chosen.value, SaveName(chosen.value));
      FindByIdSameIds(bound.files, s.files, f.id);
    }
    assert FindById(bound.files, f.id) == Some(k);
    assert SaveSpec(s, chosen, write) == WriteStep(bound, f.id, f.code, path, write);
    WriteStepSaves(bound, k, path, write);
  }

  /** A write that succeeds leaves the buffer at `k`, and every buffer sharing
      its path, clean and holding the code written. */
  lemma WriteStepSaves(b: Session, k: nat, path: string, write: (string, string) -> WriteOutcome)
    requires Valid(b) && k < |b.files| && FindById(b.files, b.files[k].id) == Some(k)
    requires b.files[k].path == Some(path) && path != []
    requires write(path, b.files[k].code).WriteOk?
    ensures var r := WriteStep(b, b.files[k].id, b.files[k].code, path, write);
      && r.written == Some(FileWrite(path, b.files[k].code)) && r.alert.None? && Valid(r.session)
      && r.session.files[k].path == Some(path) && !r.session.files[k].isDirty
      && r.session.files[k].code == b.files[k].code
      && forall i :: 0 <= i < |b.files| && r.session.files[i].path == Some(path) ==>
           !r.session.files[i].isDirty && r.session.files[i].code == b.files[k].code
  {
    SavedEffect(b, b.files[k].id);
    SavedValid(b, b.files[k].id);
  }

  /** Save-as binds the path and marks the buffer clean before writing: when
      that write fails, the buffer keeps the new path and stays clean, so a
      second save is skipped whatever the dialog and the disk then do. */
  lemma FailedSaveAsLooksSaved(s: Session, chosen: Option<string>, write: (string, string) -> WriteOutcome,
                               chosen2: Option<string>, write2: (string, string) -> WriteOutcome)
    requires Valid(s) && ActiveIndex(s).Some? && !Truthy(s.files[ActiveIndex(s).value].path)
    requires Truthy(chosen) && write(chosen.value, s.files[ActiveIndex(s).value].code).WriteFailed?
    ensures var r := SaveSpec(s, chosen, write);
      && r.written.None? && r.alert.Some?
      && r.session.files[ActiveIndex(s).value].path == chosen
      && !r.session.files[ActiveIndex(s).value].isDirty
      && SaveSpec(r.session, chosen2, write2) == NoSave(r.session)
  {
    var k := ActiveIndex(s).value;
    var f := s.files[k];
    var r := SaveSpec(s, chosen, write);
    PathBoundEffect(s, f.id, chosen.value, SaveName(chosen.value));
    FindByIdSameIds(r.session.files, s.files, f.id);
  }

  /** A save keeps the session valid. */
  lemma SaveValid(s: Session, chosen: Option<string>, write: (string, string) -> WriteOutcome)
    requires Valid(s)
    ensures Valid(SaveSpec(s, chosen, write).session)
  {
    match ActiveIndex(s)
    case None =>
    case Some(k) =>
      var f := s.files[k];
      if !Truthy(f.path) && Truthy(chosen) {
        var bound := PathBound(s, f.id, chosen.value, SaveName(chosen.value));
        PathBoundEffect(s, f.id, chosen.value, SaveName(chosen.value));
        SavedValid(bound, f.id);
      } else {
        SavedValid(s, f.id);
      }
  }

  // ---------------------------------------------------------------------------
  // openFile
  // ---------------------------------------------------------------------------

  /** How `readTextFile` ended. */
  datatype ReadOutcome = ReadOk(content: string) | ReadFailed(error: string)

  const OpenFailedAlert: string := "Failed to open file: "

  /** The buffer made from a file read from `path`. */
  function OpenedBuffer(freshId: string, path: string, content: string): MermaidFile {
    MermaidFile(freshId, OpenName(path), StripLegacyLayout(content), Some(path), false)
  }

  /** The specification of `openFile`: the session after it and the alert it
      showed. */
  function OpenSpec(s: Session, chosen: Option<string>, read: string -> ReadOutcome, freshId: string)
    : (Session, Option<string>)
  {
    if !Truthy(chosen) then (s, None)
    else match read(chosen.value)
      case ReadFailed(e) => (s, Some(OpenFailedAlert + e))
      case ReadOk(content) => (OpenedInTab(s, OpenedBuffer(freshId, chosen.value, content)), None)
  }

  /** `openFile`, on the code store: `OpenSpec` taken step by step. */
  method OpenFile(store: Store, chosen: Option<string>, read: string -> ReadOutcome, freshId: string)
    returns (alert: Option<string>)
    requires !HasId(store.files, freshId)
    modifies store
    ensures var r := OpenSpec(old(store.State()), chosen, read, freshId);
      store.State() == r.0 && alert == r.1
    ensures store.chartTheme == old(store.chartTheme)
  {
    if !Truthy(chosen) {
      return None;
    }
    var filePath := chosen.value;
    match read(filePath)
    case ReadFailed(e) =>
      alert := Some(OpenFailedAlert + e);
    case ReadOk(content) =>
      var code := StripLegacyLayout(content);
      var newFile := MermaidFile(freshId, OpenName(filePath), code, Some(filePath), false);
      store.OpenFileInTab(newFile);
      alert := None;
  }

  /** Opening a file whose path no buffer has appends a clean buffer holding
      the content without its legacy layout and makes it active; opening a path
      that is already open only focuses the first buffer with it, and the file
      just read is discarded. The session stays valid either way. */
  lemma OpenEffect(s: Session, path: string, content: string, freshId: string)
    requires Valid(s) && !HasId(s.files, freshId) && path != []
    ensures var r := OpenSpec(s, Some(path), _ => ReadOk(content), freshId).0;
      && Valid(r)
      && r.files[ActiveIndex(r).value].path == Some(path)
      && ((exists i :: 0 <= i < |s.files| && s.files[i].path == Some(path)) ==>
            && r.files == s.files
            && forall j :: 0 <= j < ActiveIndex(r).value ==> s.files[j].path != Some(path))
      && (!(exists i :: 0 <= i < |s.files| && s.files[i].path == Some(path)) ==>
            && r.files == s.files + [MermaidFile(freshId, OpenName(path), StripLegacyLayout(content), Some(path), false)]
            && r.activeFileId == Some(freshId))
  {
    OpenedInTabEffect(s, OpenedBuffer(freshId, path, content));
  }

  /** A dismissed dialog or a failed read leaves the session as it was. */
  lemma OpenFailureNoChange(s: Session, chosen: Option<string>, read: string -> ReadOutcome, freshId: string)
    requires !Truthy(chosen) || read(chosen.value).ReadFailed?
    ensures OpenSpec(s, chosen, read, freshId).0 == s
    ensures Truthy(chosen) ==> OpenSpec(s, chosen, read, freshId).1 == Some(OpenFailedAlert + read(chosen.value).error)
  {
  }
}

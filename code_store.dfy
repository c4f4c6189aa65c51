/**
 The tab/session store (`src/store/codeStore.ts`): an ordered list of open
 buffers and the id of the active one. Every action computes the new list and
 active id from the old ones with `filter`/`map`/`find`/spread; the functions
 below are those computations, and the class `Store` is the store object whose
 actions assign their results to its fields.
 */
module CodeStore {
  import opened Wrappers
  import opened Text

  /** One open buffer. `path` is absent for a buffer that was never saved. */
  datatype MermaidFile = MermaidFile(id: string, name: string, code: string, path: Option<string>, isDirty: bool)

  datatype MermaidTheme = Default | Neutral | Dark | Forest | Base

  /** The persisted part of the store: buffers and active id. */
  datatype Session = Session(files: seq<MermaidFile>, activeFileId: Option<string>)

  /** The template every new buffer starts from. */
  const DefaultCode: string :=
    "graph TD\n  A[Start] --> B{Is it working?}\n  B -- Yes --> C[Great!]\n  B -- No --> D[Debug]"

  /** A path is truthy in JavaScript when it is present and not empty. */
  predicate Truthy(p: Option<string>) {
    p.Some? && p.value != []
  }

  /** The name of the buffer created when there are `count` buffers. */
  function UntitledName(count: nat): string {
    "Untitled-" + NatToString(count + 1) + ".mmd"
  }

  function NewFile(id: string, count: nat): MermaidFile {
    MermaidFile(id, UntitledName(count), DefaultCode, None, true)
  }

  // ---------------------------------------------------------------------------
  // Invariants
  // ---------------------------------------------------------------------------

  predicate HasId(files: seq<MermaidFile>, id: string) {
    exists i :: 0 <= i < |files| && files[i].id == id
  }

  /** The active id is null or the id of some buffer. */
  predicate ActiveValid(s: Session) {
    s.activeFileId.None? || HasId(s.files, s.activeFileId.value)
  }

  /** Ids are generated fresh, so no two buffers share one. */
  predicate UniqueIds(files: seq<MermaidFile>) {
    forall i, j :: 0 <= i < j < |files| ==> files[i].id != files[j].id
  }

  predicate Valid(s: Session) {
    ActiveValid(s) && UniqueIds(s.files)
  }

  /** Same ids at the same positions. */
  predicate SameIds(a: seq<MermaidFile>, b: seq<MermaidFile>) {
    |a| == |b| && forall i :: 0 <= i < |a| ==> a[i].id == b[i].id
  }

  // ---------------------------------------------------------------------------
  // find
  // ---------------------------------------------------------------------------

  /** What a `files.find` compares: the id, or the path (absent paths are
      equal to each other, as `undefined === undefined`). */
  datatype Key = ById(id: string) | ByPath(path: Option<string>)

  predicate Matches(f: MermaidFile, key: Key) {
    match key
    case ById(id) => f.id == id
    case ByPath(path) => f.path == path
  }

  /** `files.find(...)`, as the index of the first buffer that matches. */
  function FindFirst(files: seq<MermaidFile>, key: Key): (r: Option<nat>)
    ensures r.Some? ==> r.value < |files| && Matches(files[r.value], key)
    ensures forall j :: 0 <= j < |files| && (r.None? || j < r.value) ==> !Matches(files[j], key)
  {
    if files == [] then None
    else if Matches(files[0], key) then Some(0)
    else match FindFirst(files[1..], key)
      case None => None
      case Some(k) => Some(k + 1)
  }

  /** `files.find(f => f.id === id)`. */
  function FindById(files: seq<MermaidFile>, id: string): Option<nat> {
    FindFirst(files, ById(id))
  }

  /** `files.find(f => f.path === path)`. */
  function FindByPath(files: seq<MermaidFile>, path: Option<string>): Option<nat> {
    FindFirst(files, ByPath(path))
  }

  /** The position of the active buffer, if the active id names one. */
  function ActiveIndex(s: Session): (r: Option<nat>)
    ensures r.Some? ==> r.value < |s.files|
  {
    if s.activeFileId.None? then None else FindById(s.files, s.activeFileId.value)
  }

  lemma FindByIdSameIds(a: seq<MermaidFile>, b: seq<MermaidFile>, id: string)
    requires SameIds(a, b)
    ensures FindById(a, id) == FindById(b, id)
  {
    var ra, rb := FindById(a, id), FindById(b, id);
    if ra.Some? && rb.Some? {
      assert !(ra.value < rb.value) && !(rb.value < ra.value);
    }
  }

  lemma ActiveIndexValid(s: Session)
    ensures ActiveIndex(s).Some? <==> (s.activeFileId.Some? && ActiveValid(s))
  {
  }

  // ---------------------------------------------------------------------------
  // The actions, as functions of the old session
  // ---------------------------------------------------------------------------

  /** `createFile`. */
  function Created(s: Session, freshId: string): Session {
    Session(s.files + [NewFile(freshId, |s.files|)], Some(freshId))
  }

  /** `files.filter(f => f.id !== id)`. */
  function WithoutId(files: seq<MermaidFile>, id: string): (r: seq<MermaidFile>)
    ensures |r| <= |files|
    ensures forall f :: f in r <==> f in files && f.id != id
  {
    if files == [] then []
    else (if files[0].id == id then [] else [files[0]]) + WithoutId(files[1..], id)
  }

  /** `closeFile`: drop the buffers with that id; when the active one is closed,
      the last remaining buffer (or none) becomes active. */
  function Closed(s: Session, id: string): Session {
    var rest := WithoutId(s.files, id);
    var active :=
      if s.activeFileId == Some(id) then (if |rest| > 0 then Some(Last(rest).id) else None)
      else s.activeFileId;
    Session(rest, active)
  }

  /** `selectFile`: no check that a buffer has that id. */
  function Selected(s: Session, id: string): Session {
    s.(activeFileId := Some(id))
  }

  /** Whether `updateActiveCode` writes buffer `f` when `a` is the active buffer:
      it is the active one, or it shares the active buffer's truthy path. */
  predicate LinkedTo(f: MermaidFile, a: MermaidFile, activeId: string) {
    f.id == activeId || (Truthy(a.path) && f.path == a.path)
  }

  /** `updateActiveCode`. */
  function CodeUpdated(s: Session, newCode: string): Session {
    match ActiveIndex(s)
    case None => s
    case Some(k) =>
      var a := s.files[k];
      if a.code == newCode then s
      else
        s.(files := seq(|s.files|, i requires 0 <= i < |s.files| =>
          if LinkedTo(s.files[i], a, s.activeFileId.value)
          then s.files[i].(code := newCode, isDirty := true)
          else s.files[i]))
  }

  /** `setFilePath`. */
  function PathBound(s: Session, id: string, path: string, name: string): Session {
    s.(files := seq(|s.files|, i requires 0 <= i < |s.files| =>
      if s.files[i].id == id then s.files[i].(path := Some(path), name := name, isDirty := false)
      else s.files[i]))
  }

  /** `markSaved`: the buffer is clean; every other buffer with its truthy path is
      clean too and takes its code. */
  function Saved(s: Session, id: string): Session {
    var t := FindById(s.files, id);
    var targetPath := if t.Some? then s.files[t.value].path else None;
    var targetCode := if t.Some? then s.files[t.value].code else [];
    s.(files := seq(|s.files|, i requires 0 <= i < |s.files| =>
      if s.files[i].id == id then s.files[i].(isDirty := false)
      else if Truthy(targetPath) && s.files[i].path == targetPath
      then s.files[i].(isDirty := false, code := targetCode)
      else s.files[i]))
  }

  /** `openFileInTab`: focus the first buffer with the same path, else append. */
  function OpenedInTab(s: Session, f: MermaidFile): Session {
    match FindByPath(s.files, f.path)
    case Some(k) => s.(activeFileId := Some(s.files[k].id))
    case None => Session(s.files + [f], Some(f.id))
  }

  /** The number of buffers whose path equals `p`. */
  function CountPath(files: seq<MermaidFile>, p: Option<string>): nat {
    if files == [] then 0
    else CountPath(files[..|files| - 1], p) + (if Last(files).path == p then 1 else 0)
  }

  // ---------------------------------------------------------------------------
  // createFile
  // ---------------------------------------------------------------------------

  /** A new buffer is appended, active, and the only thing that changes. */
  lemma CreatedAppendsActive(s: Session, freshId: string)
    requires !HasId(s.files, freshId)
    ensures var r := Created(s, freshId);
      && (Valid(s) ==> Valid(r))
      && |r.files| == |s.files| + 1 && r.files[..|s.files|] == s.files
      && ActiveIndex(r) == Some(|s.files|)
      && r.files[|s.files|].id == freshId
      && r.files[|s.files|].path.None? && r.files[|s.files|].isDirty
      && r.files[|s.files|].code == DefaultCode
      && r.files[|s.files|].name == "Untitled-" + NatToString(|s.files| + 1) + ".mmd"
  {
    var r := Created(s, freshId);
    assert r.files[|s.files|].id == freshId;
    assert r.files[..|s.files|] == s.files;
  }

  // ---------------------------------------------------------------------------
  // closeFile
  // ---------------------------------------------------------------------------

  /** Filtering keeps the relative order: it distributes over concatenation. */
  lemma {:induction false} WithoutIdAppend(a: seq<MermaidFile>, b: seq<MermaidFile>, id: string)
    ensures WithoutId(a + b, id) == WithoutId(a, id) + WithoutId(b, id)
  {
    if a == [] {
      assert a + b == b;
    } else {
      assert (a + b)[0] == a[0];
      assert (a + b)[1..] == a[1..] + b;
      WithoutIdAppend(a[1..], b, id);
    }
  }

  /** Filtering out an id that is not there changes nothing. */
  lemma {:induction false} WithoutIdAbsent(files: seq<MermaidFile>, id: string)
    requires !HasId(files, id)
    ensures WithoutId(files, id) == files
  {
    if files != [] {
      assert files[0].id != id;
      assert !HasId(files[1..], id) by {
        forall i | 0 <= i < |files[1..]| ensures files[1..][i].id != id {
          assert files[1..][i] == files[i + 1];
        }
      }
      WithoutIdAbsent(files[1..], id);
      assert files == [files[0]] + files[1..];
    }
  }

  /** Filtering keeps the ids of the kept buffers distinct. */
  lemma {:induction false} WithoutIdUnique(files: seq<MermaidFile>, id: string)
    requires UniqueIds(files)
    ensures UniqueIds(WithoutId(files, id))
  {
    if files != [] {
      assert UniqueIds(files[1..]) by {
        forall i, j | 0 <= i < j < |files[1..]| ensures files[1..][i].id != files[1..][j].id {
          assert files[1..][i] == files[i + 1] && files[1..][j] == files[j + 1];
        }
      }
      WithoutIdUnique(files[1..], id);
      var tail := WithoutId(files[1..], id);
      forall g | g in tail ensures g.id != files[0].id {
        var k :| 0 <= k < |files[1..]| && files[1..][k] == g;
        assert files[k + 1] == g;
      }
    }
  }

  /** Closing removes every buffer with that id and keeps all the others; the
      active id is reselected only when the active buffer was closed, to the
      last remaining buffer or to none. This holds of any session. */
  lemma ClosedEffect(s: Session, id: string)
    ensures var r := Closed(s, id);
      && !HasId(r.files, id)
      && (forall f :: f in r.files <==> f in s.files && f.id != id)
      && (s.activeFileId != Some(id) ==> r.activeFileId == s.activeFileId)
      && (s.activeFileId == Some(id) ==>
            if r.files == [] then r.activeFileId.None? else r.activeFileId == Some(Last(r.files).id))
  {
    var r := Closed(s, id);
    forall i | 0 <= i < |r.files| ensures r.files[i].id != id {
      assert r.files[i] in r.files;
    }
  }

  /** Closing removes every buffer with that id, keeps all the others, and keeps
      the session valid; the active id is reselected only when the active buffer
      was closed, to the last remaining buffer or to none. */
  lemma ClosedValid(s: Session, id: string)
    requires Valid(s)
    ensures var r := Closed(s, id);
      && Valid(r)
      && !HasId(r.files, id)
      && (forall f :: f in r.files <==> f in s.files && f.id != id)
      && (s.activeFileId != Some(id) ==> r.activeFileId == s.activeFileId)
      && (s.activeFileId == Some(id) ==>
            if r.files == [] then r.activeFileId.None? else r.activeFileId == Some(Last(r.files).id))
  {
    var r := Closed(s, id);
    WithoutIdUnique(s.files, id);
    ClosedEffect(s, id);
    if s.activeFileId.Some? && s.activeFileId != Some(id) {
      var a := s.activeFileId.value;
      var i :| 0 <= i < |s.files| && s.files[i].id == a;
      assert s.files[i] in r.files;
      var j :| 0 <= j < |r.files| && r.files[j] == s.files[i];
    }
  }

  /** Closing an id that is neither present nor active changes nothing. */
  lemma ClosedAbsentIsNoop(s: Session, id: string)
    requires !HasId(s.files, id) && s.activeFileId != Some(id)
    ensures Closed(s, id) == s
  {
    WithoutIdAbsent(s.files, id);
  }

  // ---------------------------------------------------------------------------
  // selectFile
  // ---------------------------------------------------------------------------

  /** Selecting does not validate: the result is valid exactly when the id is
      present. */
  lemma SelectedValidIff(s: Session, id: string)
    ensures ActiveValid(Selected(s, id)) <==> HasId(s.files, id)
  {
  }

  // ---------------------------------------------------------------------------
  // updateActiveCode
  // ---------------------------------------------------------------------------

  /** No active buffer, or the active code already equal: nothing changes. */
  lemma CodeUpdatedNoop(s: Session, newCode: string)
    requires ActiveIndex(s).None? || s.files[ActiveIndex(s).value].code == newCode
    ensures CodeUpdated(s, newCode) == s
  {
  }

  /** Otherwise the active buffer and every buffer sharing its truthy path get the
      new code and are dirty; every other buffer is untouched; ids, names, paths
      and the active id never change. */
  lemma CodeUpdatedEffect(s: Session, newCode: string)
    requires ActiveIndex(s).Some? && s.files[ActiveIndex(s).value].code != newCode
    ensures var r, a := CodeUpdated(s, newCode), s.files[ActiveIndex(s).value];
      && r.activeFileId == s.activeFileId
      && SameIds(r.files, s.files)
      && (forall i :: 0 <= i < |s.files| ==>
            r.files[i].name == s.files[i].name && r.files[i].path == s.files[i].path)
      && (forall i :: 0 <= i < |s.files| && LinkedTo(s.files[i], a, a.id) ==>
            r.files[i].code == newCode && r.files[i].isDirty)
      && (forall i :: 0 <= i < |s.files| && !LinkedTo(s.files[i], a, a.id) ==>
            r.files[i] == s.files[i])
  {
  }

  /** After an update, the active buffer holds the new code. */
  lemma CodeUpdatedActiveCode(s: Session, newCode: string)
    requires ActiveIndex(s).Some?
    ensures var r := CodeUpdated(s, newCode);
      ActiveIndex(r) == ActiveIndex(s) && r.files[ActiveIndex(r).value].code == newCode
  {
    var r := CodeUpdated(s, newCode);
    FindByIdSameIds(r.files, s.files, s.activeFileId.value);
  }

  /** Calling `updateActiveCode(x)` twice is the same as calling it once. */
  lemma CodeUpdatedIdempotent(s: Session, newCode: string)
    ensures CodeUpdated(CodeUpdated(s, newCode), newCode) == CodeUpdated(s, newCode)
  {
    if ActiveIndex(s).Some? {
      CodeUpdatedActiveCode(s, newCode);
    }
  }

  /** Path-linked buffers stay in sync: after an update of the buffers sharing a
      truthy path, any two of them hold the same code and dirty flag. */
  lemma CodeUpdatedSyncsPath(s: Session, newCode: string, i: nat, j: nat)
    requires ActiveIndex(s).Some? && s.files[ActiveIndex(s).value].code != newCode
    requires i < |s.files| && j < |s.files|
    requires Truthy(s.files[i].path) && s.files[i].path == s.files[j].path
    requires s.files[i].path == s.files[ActiveIndex(s).value].path
    ensures var r := CodeUpdated(s, newCode);
      r.files[i].code == r.files[j].code && r.files[i].isDirty == r.files[j].isDirty
  {
  }

  lemma CodeUpdatedValid(s: Session, newCode: string)
    requires Valid(s)
    ensures Valid(CodeUpdated(s, newCode))
  {
    var r := CodeUpdated(s, newCode);
    if ActiveIndex(s).Some? && r != s {
      var k := ActiveIndex(s).value;
      assert r.files[k].id == s.activeFileId.value;
    }
  }

  // ---------------------------------------------------------------------------
  // setFilePath
  // ---------------------------------------------------------------------------

  /** Binding a path touches only the buffers with that id: path, name and a
      clean flag; the rest of the session is unchanged and stays valid. */
  lemma PathBoundEffect(s: Session, id: string, path: string, name: string)
    ensures var r := PathBound(s, id, path, name);
      && (Valid(s) ==> Valid(r))
      && r.activeFileId == s.activeFileId
      && SameIds(r.files, s.files)
      && (forall i :: 0 <= i < |s.files| && s.files[i].id == id ==>
            r.files[i] == s.files[i].(path := Some(path), name := name, isDirty := false))
      && (forall i :: 0 <= i < |s.files| && s.files[i].id != id ==> r.files[i] == s.files[i])
  {
    var r := PathBound(s, id, path, name);
    if Valid(s) && s.activeFileId.Some? {
      var i :| 0 <= i < |s.files| && s.files[i].id == s.activeFileId.value;
      assert r.files[i].id == s.activeFileId.value;
    }
  }

  // ---------------------------------------------------------------------------
  // markSaved
  // ---------------------------------------------------------------------------

  /** Marking an unknown id saved changes nothing. */
  lemma SavedUnknownIsNoop(s: Session, id: string)
    requires !HasId(s.files, id)
    ensures Saved(s, id) == s
  {
    var r := Saved(s, id);
    assert forall i :: 0 <= i < |s.files| ==> r.files[i] == s.files[i];
  }

  /** After `markSaved(id)` the target is clean with its own code, every buffer
      sharing its truthy path is clean with the target's code, and every other
      buffer is untouched. */
  lemma SavedEffect(s: Session, id: string)
    requires UniqueIds(s.files) && HasId(s.files, id)
    ensures var t := FindById(s.files, id).value;
      var target, r := s.files[t], Saved(s, id);
      && r.activeFileId == s.activeFileId
      && SameIds(r.files, s.files)
      && r.files[t] == target.(isDirty := false)
      && (forall i :: 0 <= i < |s.files| && Truthy(target.path) && s.files[i].path == target.path ==>
            r.files[i] == s.files[i].(isDirty := false, code := target.code))
      && (forall i :: 0 <= i < |s.files| && i != t && s.files[i].path != target.path ==>
            r.files[i] == s.files[i])
      && (forall i :: 0 <= i < |s.files| && i != t && !Truthy(target.path) ==>
            r.files[i] == s.files[i])
  {
    var t := FindById(s.files, id).value;
    assert forall i :: 0 <= i < |s.files| && i != t ==> s.files[i].id != id;
  }

  /** Path-linked buffers stay in sync after a save: all buffers with the saved
      buffer's truthy path hold the same code and are clean. */
  lemma SavedSyncsPath(s: Session, id: string, i: nat, j: nat)
    requires UniqueIds(s.files) && HasId(s.files, id)
    requires i < |s.files| && j < |s.files|
    requires var target := s.files[FindById(s.files, id).value];
      Truthy(target.path) && s.files[i].path == target.path && s.files[j].path == target.path
    ensures var r := Saved(s, id);
      r.files[i].code == r.files[j].code && !r.files[i].isDirty && !r.files[j].isDirty
  {
    SavedEffect(s, id);
  }

  lemma SavedValid(s: Session, id: string)
    requires Valid(s)
    ensures Valid(Saved(s, id))
  {
    var r := Saved(s, id);
    if s.activeFileId.Some? {
      var i :| 0 <= i < |s.files| && s.files[i].id == s.activeFileId.value;
      assert r.files[i].id == s.activeFileId.value;
    }
  }

  // ---------------------------------------------------------------------------
  // openFileInTab
  // ---------------------------------------------------------------------------

  /** Opening focuses the first buffer with the same path (absent paths
      included; no earlier buffer has it) without touching the list, or appends the incoming buffer and
      makes it active; the list grows by at most one and the active buffer
      always has the incoming path. */
  lemma OpenedInTabEffect(s: Session, f: MermaidFile)
    requires Valid(s) && (FindByPath(s.files, f.path).None? ==> !HasId(s.files, f.id))
    ensures var r := OpenedInTab(s, f);
      && Valid(r)
      && |s.files| <= |r.files| <= |s.files| + 1
      && ActiveIndex(r).Some? && r.files[ActiveIndex(r).value].path == f.path
      && ((exists i :: 0 <= i < |s.files| && s.files[i].path == f.path) ==>
            && r.files == s.files
            && forall j :: 0 <= j < ActiveIndex(r).value ==> s.files[j].path != f.path)
      && (!(exists i :: 0 <= i < |s.files| && s.files[i].path == f.path) ==>
            r.files == s.files + [f] && ActiveIndex(r) == Some(|s.files|))
  {
    var r := OpenedInTab(s, f);
    match FindByPath(s.files, f.path)
    case Some(k) =>
      assert FindById(s.files, s.files[k].id) == Some(k);
    case None =>
      assert r.files[|s.files|] == f;
      assert FindById(r.files, f.id) == Some(|s.files|);
  }

  lemma CountPathAppend(files: seq<MermaidFile>, f: MermaidFile, p: Option<string>)
    ensures CountPath(files + [f], p) == CountPath(files, p) + (if f.path == p then 1 else 0)
  {
    assert (files + [f])[..|files|] == files;
  }

  lemma {:induction false} CountPathZero(files: seq<MermaidFile>, p: Option<string>)
    ensures CountPath(files, p) == 0 <==> forall i :: 0 <= i < |files| ==> files[i].path != p
  {
    if files != [] {
      var init := files[..|files| - 1];
      CountPathZero(init, p);
      assert forall i :: 0 <= i < |init| ==> init[i] == files[i];
    }
  }

  /** Opening a file never makes a second tab for a path: the number of buffers
      with the incoming path becomes one if it was zero and stays as it was
      otherwise. */
  lemma OpenedInTabCount(s: Session, f: MermaidFile)
    ensures var before, after := CountPath(s.files, f.path), CountPath(OpenedInTab(s, f).files, f.path);
      after == if before == 0 then 1 else before
  {
    CountPathZero(s.files, f.path);
    if FindByPath(s.files, f.path).None? {
      CountPathAppend(s.files, f, f.path);
    }
  }

  /** Opening two buffers with the same path, starting with none, leaves exactly
      one buffer with that path. */
  lemma OpenedTwiceOneTab(s: Session, f: MermaidFile, g: MermaidFile)
    requires CountPath(s.files, f.path) == 0 && g.path == f.path
    ensures CountPath(OpenedInTab(OpenedInTab(s, f), g).files, f.path) == 1
  {
    OpenedInTabCount(s, f);
    OpenedInTabCount(OpenedInTab(s, f), g);
  }

  // ---------------------------------------------------------------------------
  // The store object
  // ---------------------------------------------------------------------------

  class Store {
    var files: seq<MermaidFile>
    var activeFileId: Option<string>
    var chartTheme: MermaidTheme

    function State(): Session
      reads this
    {
      Session(files, activeFileId)
    }

    /** A first start: no buffers, nothing active, the dark theme. */
    constructor ()
      ensures State() == Session([], None) && chartTheme == Dark
    {
      files, activeFileId, chartTheme := [], None, Dark;
    }

    /** A restart: the persisted buffers and active id come back, the theme is
        not persisted and starts from its initial value again. */
    constructor Rehydrate(saved: Session)
      ensures State() == saved && chartTheme == Dark
    {
      files, activeFileId, chartTheme := saved.files, saved.activeFileId, Dark;
    }

    /** `partialize`: what is written to storage. */
    function Partialize(): Session
      reads this
    {
      State()
    }

    /** A reload: a new store rehydrated from what `Partialize` wrote keeps the
        buffers and the active id, and only the theme starts over. */
    method Restart() returns (r: Store)
      ensures fresh(r) && r.State() == State() && r.chartTheme == Dark
    {
      r := new Store.Rehydrate(Partialize());
    }

    method SetChartTheme(theme: MermaidTheme)
      modifies this
      ensures chartTheme == theme && State() == old(State())
    {
      chartTheme := theme;
    }

    method CreateFile(freshId: string)
      requires !HasId(files, freshId)
      modifies this
      ensures State() == Created(old(State()), freshId) && chartTheme == old(chartTheme)
      ensures Valid(old(State())) ==> Valid(State())
    {
      if Valid(State()) {
        CreatedAppendsActive(State(), freshId);
      }
      var next := Created(State(), freshId);
      files, activeFileId := next.files, next.activeFileId;
    }

    method CloseFile(id: string)
      modifies this
      ensures State() == Closed(old(State()), id) && chartTheme == old(chartTheme)
      ensures Valid(old(State())) ==> Valid(State())
    {
      if Valid(State()) {
        ClosedValid(State(), id);
      }
      var next := Closed(State(), id);
      files, activeFileId := next.files, next.activeFileId;
    }

    method SelectFile(id: string)
      modifies this
      ensures State() == Selected(old(State()), id) && chartTheme == old(chartTheme)
    {
      activeFileId := Some(id);
    }

    method UpdateActiveCode(newCode: string)
      modifies this
      ensures State() == CodeUpdated(old(State()), newCode) && chartTheme == old(chartTheme)
      ensures Valid(old(State())) ==> Valid(State())
    {
      if Valid(State()) {
        CodeUpdatedValid(State(), newCode);
      }
      var next := CodeUpdated(State(), newCode);
      files := next.files;
    }

    method SetFilePath(id: string, path: string, name: string)
      modifies this
      ensures State() == PathBound(old(State()), id, path, name) && chartTheme == old(chartTheme)
      ensures Valid(old(State())) ==> Valid(State())
    {
      if Valid(State()) {
        PathBoundEffect(State(), id, path, name);
      }
      files := PathBound(State(), id, path, name).files;
    }

    method MarkSaved(id: string)
      modifies this
      ensures State() == Saved(old(State()), id) && chartTheme == old(chartTheme)
      ensures Valid(old(State())) ==> Valid(State())
    {
      if Valid(State()) {
        SavedValid(State(), id);
      }
      files := Saved(State(), id).files;
    }

    method OpenFileInTab(f: MermaidFile)
      requires !HasId(files, f.id)
      modifies this
      ensures State() == OpenedInTab(old(State()), f) && chartTheme == old(chartTheme)
      ensures Valid(old(State())) ==> Valid(State())
    {
      if Valid(State()) {
        OpenedInTabEffect(State(), f);
      }
      var next := OpenedInTab(State(), f);
      files, activeFileId := next.files, next.activeFileId;
    }
  }
}

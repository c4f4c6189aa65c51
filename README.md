# Mermaid editor core, modelled in Dafny

This project models the logic at the core of a desktop Mermaid diagram editor (a
Tauri + React application). It covers five parts:

- **The session store** (`CodeStore`, from `src/store/codeStore.ts`). It holds an ordered list
  of diagram buffers (`id`, `name`, `code`, optional `path`, `isDirty`), the id of the
  active buffer and the chart theme. Its actions create, close, select, edit, bind a path,
  mark saved and open-or-focus buffers. `updateActiveCode` and `markSaved` copy the code to every
  buffer on the same truthy path.
- **The AI configuration store** (`AIStore`, from `src/store/aiStore.ts`). It holds the
  provider settings, which are merged from partial updates and persisted, and three UI
  flags, which are not persisted.
- **The streaming completion client** (`AIService`, from `src/utils/aiService.ts`). It
  assembles the chat request and checks the HTTP status and body. Its read loop reassembles
  newline-terminated lines from arbitrary chunks, classifies each trimmed line (blank,
  `data: [DONE]`, `data:` plus a payload, anything else) and yields the non-empty delta
  contents.
- **The rewrite controller** (`CommandBar`, from `src/components/CommandBar.tsx`). It strips
  the markdown fence from the whole accumulated answer after every fragment. It pushes each
  non-blank cleaned view into the active buffer. It has the start guards, the alert on
  failure (none on the `'Request canceled'` error) and the `finally` teardown of
  `isLoading`, `isGenerating` and the abort handle. `handleStop` is modelled too.
- **Save and open** (`FileManager`, from `src/utils/fileManager.ts`):
  - when a save is skipped;
  - save-as binding the chosen path before the write;
  - the write and `markSaved`;
  - the base name taken after the last `/` or `\`;
  - the legacy `%% MERMAID_MASTER_LAYOUT=` token stripped from opened files;
  - the opened buffer handed to `openFileInTab`.

Two more modules support them. `Text` models the JavaScript string built-ins the code relies
on: `trim` with ECMAScript's white-space and line-terminator set, `split('\n')`, `indexOf`
and decimal formatting of numbers. `Wrappers` holds `Option`.

State that the source changes in place is modelled as classes:
- `CodeStore.Store` and `AIStore.Store` for the two stores;
- `CommandBar.Controller` for the component's `input`, `isLoading` and abort ref;
- `CommandBar.AbortController`.

Each store method is proved against a pure transition on an immutable `Session` value, for
example `CodeStore.CodeUpdated` for `updateActiveCode`. The properties are lemmas about
those transitions. The read loop of `streamChatCompletion` is a `while` loop proved against
`AIService.StreamResult`. `StreamResult` is a specification that does not depend on how the
text was cut into chunks.

The outside world is passed in as parameters:
- `fetch`: from the request to a rejection or a response, whose body is a list of decoded
  chunks and how reading ended;
- `decode`: `JSON.parse` followed by `choices[0]?.delta?.content`;
- the dialog's choice, as a path or a cancel;
- `write` and `read`, for the file system;
- a fresh id with a not-in-use precondition, standing in for `crypto.randomUUID`.

The closing pattern `` /```\s*$/ `` removes only the closing fence and the whitespace after it,
so the newline before the fence stays: the fenced answer
```` "```mermaid\ngraph TD\n  A-->B\n```" ```` cleans to `"graph TD\n  A-->B\n"`
(`CommandBar.CleanFencedExample`).

## Model

| member | source | states |
|---|---|---|
| CodeStore.FindFirst | src/store/codeStore.ts:78 | `files.find`, by id or by path (both absent counts as equal): the index of the first matching buffer, and None only when no buffer matches |
| CodeStore.FindById | src/store/codeStore.ts:78 | definition: `find` by id, an instance of `FindFirst` |
| CodeStore.FindByPath | src/store/codeStore.ts:122 | definition: `find` by path, an instance of `FindFirst` |
| CodeStore.ActiveIndexValid | src/store/codeStore.ts:78-79 | the active buffer is found exactly when the active id is set and names a buffer |
| CodeStore.Created | src/store/codeStore.ts:49-60 | definition of `createFile` on a session value; its effect is `CreatedAppendsActive` |
| CodeStore.WithoutId | src/store/codeStore.ts:64 | `filter` by id: keeps exactly the buffers with another id and never grows the list; see `WithoutIdAppend`, `WithoutIdAbsent`, `WithoutIdUnique` |
| CodeStore.Closed | src/store/codeStore.ts:62-72 | definition of `closeFile`; its effect is `ClosedEffect`, `ClosedValid` and `ClosedAbsentIsNoop` |
| CodeStore.CodeUpdated | src/store/codeStore.ts:76-94 | definition of `updateActiveCode`; its effect is the `CodeUpdated*` lemmas |
| CodeStore.PathBound | src/store/codeStore.ts:96-102 | definition of `setFilePath`; its effect is `PathBoundEffect` |
| CodeStore.Saved | src/store/codeStore.ts:104-118 | definition of `markSaved`; its effect is the `Saved*` lemmas |
| CodeStore.OpenedInTab | src/store/codeStore.ts:120-132 | definition of `openFileInTab`; its effect is `OpenedInTabEffect` and the `OpenedTwiceOneTab` count |
| CodeStore.CreatedAppendsActive | src/store/codeStore.ts:49-60 | `createFile` appends one buffer (fresh id, name `Untitled-{n+1}.mmd`, the default code, dirty, no path), makes it active, leaves the earlier buffers as they were and keeps the session valid |
| CodeStore.WithoutIdAppend | src/store/codeStore.ts:64 | the `filter` keeps relative order: it distributes over concatenation |
| CodeStore.WithoutIdAbsent | src/store/codeStore.ts:64 | filtering out an id no buffer has returns the list unchanged |
| CodeStore.WithoutIdUnique | src/store/codeStore.ts:64 | filtering keeps ids unique |
| CodeStore.ClosedEffect | src/store/codeStore.ts:62-72 | on any session, `closeFile` removes exactly the buffers with that id. If it was active, the last remaining buffer (or none) becomes active, otherwise the active id is kept |
| CodeStore.ClosedValid | src/store/codeStore.ts:62-72 | `closeFile` removes exactly the buffers with that id. If it was active, the last remaining buffer (or none) becomes active, otherwise the active id is kept. The session stays valid |
| CodeStore.ClosedAbsentIsNoop | src/store/codeStore.ts:62-72 | closing an id that is neither present nor active changes nothing |
| CodeStore.SelectedValidIff | src/store/codeStore.ts:74 | `selectFile` does not check its id: the active id stays valid if and only if some buffer has that id |
| CodeStore.CodeUpdatedNoop | src/store/codeStore.ts:78-80 | with no active buffer, or when the active code already equals the new code, the state is unchanged |
| CodeStore.CodeUpdatedEffect | src/store/codeStore.ts:82-91 | otherwise the active buffer and every buffer sharing its truthy path take the code and become dirty. All others are untouched, and ids, names, paths and the active id are kept |
| CodeStore.CodeUpdatedActiveCode | src/store/codeStore.ts:76-94 | after an update the active buffer is the same one and holds the new code |
| CodeStore.CodeUpdatedIdempotent | src/store/codeStore.ts:78-80 | two updates with the same code are one update |
| CodeStore.CodeUpdatedSyncsPath | src/store/codeStore.ts:87-89 | two buffers sharing the active buffer's truthy path end with equal code and equal dirty flags |
| CodeStore.CodeUpdatedValid | src/store/codeStore.ts:76-94 | updating the code keeps the session valid |
| CodeStore.PathBoundEffect | src/store/codeStore.ts:96-102 | `setFilePath` sets path, name and a clean flag on the buffers with that id only. Nothing else changes, and validity is kept |
| CodeStore.SavedUnknownIsNoop | src/store/codeStore.ts:104-118 | `markSaved` of an unknown id changes nothing |
| CodeStore.SavedEffect | src/store/codeStore.ts:104-118 | the target becomes clean. Every other buffer with the target's truthy path becomes clean and takes the target's code. All others are untouched |
| CodeStore.SavedSyncsPath | src/store/codeStore.ts:111-113 | after `markSaved`, buffers on the target's path hold equal code and are all clean |
| CodeStore.SavedValid | src/store/codeStore.ts:104-118 | `markSaved` keeps the session valid |
| CodeStore.OpenedInTabEffect | src/store/codeStore.ts:120-132 | if a buffer already has the path, the list is unchanged and the first buffer with it is focused. Otherwise the buffer is appended and focused. The list grows by at most one and the session stays valid |
| CodeStore.CountPathZero | src/store/codeStore.ts:122 | no buffer has the path exactly when the count of buffers on it is zero |
| CodeStore.CountPathAppend | src/store/codeStore.ts:128 | appending a buffer adds one to the count of its own path only |
| CodeStore.OpenedInTabCount | src/store/codeStore.ts:120-132 | opening a file never adds a second tab for a path already open |
| CodeStore.OpenedTwiceOneTab | src/store/codeStore.ts:120-132 | opening the same path twice leaves exactly one tab for it |
| CodeStore.Store.constructor | src/store/codeStore.ts:44-46 | first start: no buffers, no active id, the dark theme |
| CodeStore.Store.Rehydrate | src/store/codeStore.ts:134-139 | a restart restores the buffers and the active id, and the theme, which is not persisted, is dark again |
| CodeStore.Store.Restart | src/store/codeStore.ts:134-139 | a reload from what `partialize` writes gives a new store with the same buffers and active id, and the dark theme |
| CodeStore.Store.SetChartTheme | src/store/codeStore.ts:47 | sets the theme and leaves the session alone |
| CodeStore.Store.CreateFile | src/store/codeStore.ts:49-60 | the new state is `Created` of the old one, and validity is preserved |
| CodeStore.Store.CloseFile | src/store/codeStore.ts:62-72 | the new state is `Closed` of the old one, and validity is preserved |
| CodeStore.Store.SelectFile | src/store/codeStore.ts:74 | the new state is the old one with the given active id |
| CodeStore.Store.UpdateActiveCode | src/store/codeStore.ts:76-94 | the new state is `CodeUpdated` of the old one, and validity is preserved |
| CodeStore.Store.SetFilePath | src/store/codeStore.ts:96-102 | the new state is `PathBound` of the old one, and validity is preserved |
| CodeStore.Store.MarkSaved | src/store/codeStore.ts:104-118 | the new state is `Saved` of the old one, and validity is preserved |
| CodeStore.Store.OpenFileInTab | src/store/codeStore.ts:120-132 | the new state is `OpenedInTab` of the old one, and validity is preserved |
| AIStore.Merged | src/store/aiStore.ts:46-49 | definition of the `{ ...state.provider, ...partial }` spread; its laws are `MergedOverwritesPresent` and `MergedLaws` |
| AIStore.MergedOverwritesPresent | src/store/aiStore.ts:46-49 | the merge overwrites exactly the fields present in the partial provider and keeps the others |
| AIStore.MergedLaws | src/store/aiStore.ts:46-49 | the empty patch changes nothing, a repeated patch acts once, and two merges compose into one |
| AIStore.Store.constructor | src/store/aiStore.ts:30-44 | first start: the default provider and every flag off |
| AIStore.Store.Rehydrate | src/store/aiStore.ts:55-60 | a restart restores the provider, and every flag is off again |
| AIStore.Store.Restart | src/store/aiStore.ts:55-60 | a reload from what `partialize` writes gives a new store with the same provider and every flag off |
| AIStore.Store.UpdateProvider | src/store/aiStore.ts:46-49 | the provider becomes the merge of the old one with the patch, and the flags are kept |
| AIStore.Store.SetSettingsOpen | src/store/aiStore.ts:51 | sets its own flag only |
| AIStore.Store.SetCommandBarOpen | src/store/aiStore.ts:52 | sets its own flag only |
| AIStore.Store.SetGenerating | src/store/aiStore.ts:53 | sets its own flag only |
| AIService.RequestMessages | src/utils/aiService.ts:35-40 | definition of `apiMessages`; its shape is `RequestMessagesOrder` and `ContextMessageInjective` |
| AIService.RequestMessagesOrder | src/utils/aiService.ts:35-40 | the request lists the system prompt, then a system message that holds exactly the current code between the `Current Diagram Code:` head and the closing fence, then the caller's messages in their order |
| AIService.ContextMessageInjective | src/utils/aiService.ts:38 | the context message determines the code it carries |
| AIService.StreamResult | src/utils/aiService.ts:45-115 | the chunk-independent specification of the generator: errors first, then the fragments of the complete lines of all the text received; `ReadLines` is proved equal to it |
| AIService.CompleteLines | src/utils/aiService.ts:83-86 | definition of the lines the read loop gets to see; see `CompleteLinesReassemble` and `UnterminatedTailIgnored` |
| AIService.Classify | src/utils/aiService.ts:89-113 | definition of the per-line branches; see `DataLineClassified`, `DoneMarkerVariants`, `NotDoneLine`, `SilentLineTransparent` |
| AIService.ClassifyTrimmed | src/utils/aiService.ts:90-113 | definition of the branches on a trimmed line; see `DoneTrimmed` and `PayloadAfterPrefix` |
| AIService.StreamChatCompletion | src/utils/aiService.ts:22-116 | the chunked read loop delivers exactly the specified run: the status and body errors come before any fragment, and a delivered body yields the fragments of the complete lines of all the text received |
| AIService.ReadLines | src/utils/aiService.ts:72-115 | the `while` loop over the reader, whatever the chunking, delivers exactly the fragments of the complete lines of all the text received |
| AIService.ReadChunk | src/utils/aiService.ts:81-87 | one chunk: the text received so far still splits into the lines already processed and the retained tail, and the fragments are those of the processed lines |
| AIService.ReadStep | src/utils/aiService.ts:83-86 | splitting the buffer plus the new chunk extends the lines already processed by exactly its pieces but the last, which becomes the new buffer |
| AIService.YieldLines | src/utils/aiService.ts:88-114 | the inner loop appends what the lines yield, each line once and in order |
| AIService.ChunkStep | src/utils/aiService.ts:83-86 | appending a chunk to the buffer and splitting again leaves the lines already processed untouched |
| AIService.CompleteLinesReassemble | src/utils/aiService.ts:85-86 | the complete lines joined with newlines, followed by the retained buffer, give back the text received. The buffer holds no newline |
| AIService.UnterminatedTailIgnored | src/utils/aiService.ts:74-79 | text after the last newline when the reader reports done is never classified |
| AIService.CollectAppend | src/utils/aiService.ts:88 | lines are consumed in order: the yield of two runs of lines is the concatenation of their yields |
| AIService.FragmentsAppend | src/utils/aiService.ts:88 | the fragments of two runs of lines concatenate, so how the text was chunked does not matter |
| AIService.CollectNonEmpty | src/utils/aiService.ts:103-105 | if each line yields only non-empty pieces, so does a run of lines |
| AIService.FragmentsNonEmpty | src/utils/aiService.ts:103-105 | every fragment yielded is non-empty |
| AIService.LineFragments | src/utils/aiService.ts:89-113 | a line yields at most one fragment, and a fragment is never empty |
| AIService.CollectSilent | src/utils/aiService.ts:88-114 | a line that yields nothing does not affect the lines around it |
| AIService.SilentLineTransparent | src/utils/aiService.ts:88-113 | a silent line (blank, `[DONE]`, unparsable, without content, or not `data:`) neither ends the stream nor changes what other lines yield |
| AIService.DoneMarkerVariants | src/utils/aiService.ts:89-97 | `data:`, optional whitespace and `[DONE]`, padded with whitespace, is a done marker |
| AIService.DoneTrimmed | src/utils/aiService.ts:93-97 | a trimmed `data:` line whose payload after optional whitespace is `[DONE]` is a done marker |
| AIService.NotDoneLine | src/utils/aiService.ts:90 | a `data:` line with any other payload is not the literal `data: [DONE]` |
| AIService.PayloadAfterPrefix | src/utils/aiService.ts:95 | removing at most one whitespace character after `data:` and trimming again gives the payload |
| AIService.DataLineClassified | src/utils/aiService.ts:89-97 | a padded `data:` line with any payload other than `[DONE]` is classified as data carrying exactly that payload |
| AIService.DataLineYield | src/utils/aiService.ts:99-109 | such a line yields the delta content when it is a non-empty string and nothing otherwise, including when parsing fails |
| AIService.DataFrameYield | src/utils/aiService.ts:99-109 | a line classified as data yields the decoded content when it is a non-empty string, and nothing otherwise |
| AIService.UnexpectedLineSilent | src/utils/aiService.ts:110-113 | a line that does not start with `data:` yields nothing |
| AIService.FailuresYieldNothing | src/utils/aiService.ts:59-65 | a rejected fetch, a non-ok status (`API Error: {status} - {text}`) or a missing body (`No response body`) throws before any fragment |
| CommandBar.StripOpening | src/components/CommandBar.tsx:113 | definition of the leading replacement; see `OpeningStripped`, `OpeningBare`, `OpeningNeedsFence` |
| CommandBar.StripClosing | src/components/CommandBar.tsx:117 | definition of the trailing replacement; see `StripClosingIsReplacement` and `ClosingFenceUnique` |
| CommandBar.CleanCode | src/components/CommandBar.tsx:109-117 | definition of the cleaning; see `CleanFenced`, `FenceFreeUnchanged`, `TwoBackticksUnchanged` |
| CommandBar.ClosingFenceUnique | src/components/CommandBar.tsx:117 | the closing pattern can match at one position at most |
| CommandBar.ClosingAtTrimEnd | src/components/CommandBar.tsx:117 | where the closing pattern matches, the fence ends the text once trailing whitespace is trimmed |
| CommandBar.StripClosingIsReplacement | src/components/CommandBar.tsx:117 | the closing strip cuts the text at the match of `` /```\s*$/ `` when there is one and returns it unchanged otherwise |
| CommandBar.StripClosingAt | src/components/CommandBar.tsx:117 | where the closing pattern matches, the strip cuts the text exactly there |
| CommandBar.ClosingFenceFound | src/components/CommandBar.tsx:117 | when the strip cuts, the closing pattern matches at the cut |
| CommandBar.OpeningNeedsFence | src/components/CommandBar.tsx:113 | text that does not start with three backticks is unchanged by the leading strip |
| CommandBar.OpeningStripped | src/components/CommandBar.tsx:113 | a leading fence, an optional `mermaid` in any ASCII case and all whitespace after it are removed, and the rest is kept (the tagged, untagged and bare cases are proved step by step in helper lemmas) |
| CommandBar.OpeningBare | src/components/CommandBar.tsx:113 | the untagged case with nothing between the fence and the code |
| CommandBar.CleanFenced | src/components/CommandBar.tsx:109-117 | a complete ```` ```mermaid\n{code}``` ```` answer cleans to the code |
| CommandBar.CleanFencedExample | src/components/CommandBar.tsx:109-117 | the fenced example cleans to `"graph TD\n  A-->B\n"`: the newline before the closing fence stays |
| CommandBar.FenceFreeUnchanged | src/components/CommandBar.tsx:109-117 | text without a backtick passes through cleaning unchanged |
| CommandBar.TwoBackticksUnchanged | src/components/CommandBar.tsx:113 | two backticks alone are kept as they are |
| CommandBar.PerPrefixOrigin | src/components/CommandBar.tsx:105-109 | everything pushed comes from one of the non-empty prefixes of the fragments |
| CommandBar.PerPrefixLength | src/components/CommandBar.tsx:105-123 | one push at most per fragment |
| CommandBar.PushAfterView | src/components/CommandBar.tsx:119-122 | a push is the cleaned view of the accumulated text and is never blank |
| CommandBar.Pushes | src/components/CommandBar.tsx:105-123 | definition of the updates one stream sends; see `PushesArePrefixViews`, `PushesEndWithWholeAnswer`, `PushesSnoc` |
| CommandBar.PushesArePrefixViews | src/components/CommandBar.tsx:105-122 | every push is the non-blank cleaned view of the whole text accumulated so far, never of a fragment alone, with at most one per fragment |
| CommandBar.PushesEndWithWholeAnswer | src/components/CommandBar.tsx:105-122 | when the whole answer's cleaned view is not blank, it is the last push |
| CommandBar.PushesSnoc | src/components/CommandBar.tsx:105-122 | one more fragment adds exactly the push of the new accumulated text |
| CommandBar.ApplyAll | src/components/CommandBar.tsx:120-122 | definition of a run of `updateActiveCode` calls; see `ApplyAllAppend` and `ApplyAllLastWins` |
| CommandBar.ApplyAllAppend | src/components/CommandBar.tsx:105-123 | applying two runs of pushes one after the other is applying their concatenation |
| CommandBar.ApplyAllLastWins | src/components/CommandBar.tsx:120-140 | pushes keep the buffers, ids, active buffer and validity, and the active buffer ends with the last push, with no rollback on error |
| CommandBar.PushView | src/components/CommandBar.tsx:107-122 | one loop step: the store receives the cleaned view of the accumulated text when it is not blank, and nothing otherwise |
| CommandBar.ApplyFragments | src/components/CommandBar.tsx:106-123 | the `for await` loop leaves the store as the pushes of every prefix of the fragments, applied in order |
| CommandBar.RunEdit | src/components/CommandBar.tsx:82-104 | the edit sends the requirement as the only user message, with the active buffer's code as context, and returns what the stream of that request delivers |
| CommandBar.DefaultProviderBlocksEdits | src/store/aiStore.ts:30-36 | with the default provider, whose API key is empty, no edit starts |
| CommandBar.AbortController.constructor | src/components/CommandBar.tsx:88 | a fresh controller is not aborted |
| CommandBar.AbortController.Abort | src/components/CommandBar.tsx:66 | aborting marks the controller aborted |
| CommandBar.Controller.constructor | src/components/CommandBar.tsx:11-14 | the component starts with empty input, not loading, no abort handle and no alert |
| CommandBar.Controller.HandleStop | src/components/CommandBar.tsx:64-71 | aborts the live controller if there is one, clears the ref, `isLoading` and `isGenerating`, and changes nothing else |
| CommandBar.Controller.HandleExecute | src/components/CommandBar.tsx:73-146 | blank input or loading: nothing changes. No API key: one alert. No active buffer: nothing changes. Otherwise the store receives the pushes of the run's fragments, the input is cleared only on completion, an alert appears only for an error other than `'Request canceled'`, and the flags and ref end cleared |
| CommandBar.Controller.Execute | src/components/CommandBar.tsx:85-145 | once the guards pass, the store, the input, the alerts and the flags end as the run of the edit's request dictates |
| CommandBar.Controller.Consume | src/components/CommandBar.tsx:85-145 | given a run: its fragments are pushed, the input is cleared only if it finished, a failure other than `'Request canceled'` adds one alert, and the `finally` block clears the flags and the ref |
| FileManager.LastSegment | src/utils/fileManager.ts:35 | definition of `split(/[/\\]/).pop()`; see `LastSegmentIsFinalPiece` and `NameAfterSeparator` |
| FileManager.LastSegmentIsFinalPiece | src/utils/fileManager.ts:35 | the base name is the separator-free suffix of the path that follows its last `/` or `\` |
| FileManager.NameAfterSeparator | src/utils/fileManager.ts:71 | a name after a separator is the base name |
| FileManager.NamesOfPaths | src/utils/fileManager.ts:35-71 | a trailing separator gives `Untitled.mmd` on save and `Unknown.mmd` on open, and a file name after a directory is kept |
| FileManager.StripLegacyLayout | src/utils/fileManager.ts:66-69 | definition of the legacy strip; see `LegacyFreeKept`, `LegacyLayoutDropped`, `LegacyStripTokenFree`, `LegacyStripIdempotent` |
| FileManager.LegacyFreeKept | src/utils/fileManager.ts:66-69 | content without the legacy token is kept verbatim |
| FileManager.LegacyLayoutDropped | src/utils/fileManager.ts:66-69 | content with the token keeps only the text before its first occurrence, trimmed |
| FileManager.PrefixOccurrence | src/utils/fileManager.ts:67-68 | a token that starts inside a token-free prefix is not found there |
| FileManager.BeforeFirstTokenFree | src/utils/fileManager.ts:68 | the text before the first occurrence holds no token |
| FileManager.TrimmedTokenFree | src/utils/fileManager.ts:68 | trimming does not create a token |
| FileManager.LegacyStripTokenFree | src/utils/fileManager.ts:66-69 | stripped content never holds the token |
| FileManager.LegacyStripIdempotent | src/utils/fileManager.ts:66-69 | stripping twice is stripping once |
| FileManager.SaveSpec | src/utils/fileManager.ts:5-49 | definition of `saveFile` on a session value; see `SaveSkipped`, `SaveWritesActive`, `FailedSaveAsLooksSaved`, `SaveValid` |
| FileManager.SaveFile | src/utils/fileManager.ts:5-49 | the save leaves the store, the write and the alert exactly as `SaveSpec` says |
| FileManager.SaveSkipped | src/utils/fileManager.ts:8-29 | no active buffer, a clean buffer with a path, or a cancelled dialog: nothing is written and nothing changes |
| FileManager.SaveWritesActive | src/utils/fileManager.ts:18-44 | a write carries the active buffer's code to its path or to the chosen path. The buffer ends bound to that path and clean, and every buffer on it is clean with the written code |
| FileManager.WriteStepSaves | src/utils/fileManager.ts:41-44 | a successful write followed by `markSaved` leaves the buffer and every buffer on its path clean with the written code, and the session valid |
| FileManager.FailedSaveAsLooksSaved | src/utils/fileManager.ts:36-47 | when save-as fails to write, the buffer is still bound to the chosen path and marked clean, so the next save is skipped |
| FileManager.SaveValid | src/utils/fileManager.ts:5-49 | saving keeps the session valid |
| FileManager.OpenSpec | src/utils/fileManager.ts:51-87 | definition of `openFile` on a session value; see `OpenEffect` and `OpenFailureNoChange` |
| FileManager.OpenFile | src/utils/fileManager.ts:51-87 | opening leaves the store and the alert exactly as `OpenSpec` says |
| FileManager.OpenEffect | src/utils/fileManager.ts:63-81 | a read file becomes a clean buffer with a fresh id, its path, its base name and the stripped content, focused through `openFileInTab`. An already open path focuses its first buffer instead |
| FileManager.OpenFailureNoChange | src/utils/fileManager.ts:58-86 | a cancelled dialog or a failed read changes nothing, and a failed read shows `Failed to open file: ` and the error |
| Text.TrimStart | src/utils/aiService.ts:89 | the leading part `trim` removes is all whitespace, and what remains is a suffix that starts with a non-whitespace character |
| Text.TrimEnd | src/utils/aiService.ts:89 | the trailing part `trim` removes is all whitespace, and what remains is a prefix that ends with a non-whitespace character |
| Text.Trim | src/utils/aiService.ts:89 | `trim` shortens the text, and its result neither starts nor ends with whitespace |
| Text.TrimPadded | src/utils/aiService.ts:89 | trimming a text padded with whitespace on both sides gives back the text |
| Text.TrimIdempotent | src/utils/aiService.ts:89 | `trim` is idempotent: trimming a trimmed line again changes nothing |
| Text.BlankIffAllWhitespace | src/components/CommandBar.tsx:75 | `!input.trim()` holds exactly when every character of the input is whitespace |
| Text.TrimIsSlice | src/utils/fileManager.ts:68 | the trimmed text is a contiguous slice of the original |
| Text.Split | src/utils/aiService.ts:85-86 | `split` always returns at least one piece, so `pop` always has a tail to keep |
| Text.SplitPiecesFree | src/utils/aiService.ts:85 | no piece of a split holds the separator |
| Text.JoinSplit | src/utils/aiService.ts:85 | the pieces joined with the separator give back the string |
| Text.SplitJoin | src/utils/aiService.ts:85 | splitting a join of separator-free pieces gives back the pieces |
| Text.SplitFree | src/utils/aiService.ts:85 | a string without the separator splits into itself |
| Text.SplitAppend | src/utils/aiService.ts:83-85 | splitting a concatenation fuses the last piece of the first part with the first piece of the second |
| Text.IndexFrom | src/utils/fileManager.ts:67-68 | the search finds an occurrence, and none at an earlier index at or after the start |
| Text.IndexOf | src/utils/fileManager.ts:67-68 | the first occurrence of the token, or none when it never occurs |
| Text.SliceKeepsAbsence | src/utils/fileManager.ts:68 | a slice of a token-free text is token-free |
| Text.NatToString | src/store/codeStore.ts:52 | the number in a template literal is decimal digits only, with no leading zero except for 0 |
| Text.NatToStringValue | src/store/codeStore.ts:52 | reading the digits back gives the number |
| Text.NatToStringInjective | src/store/codeStore.ts:52 | different counts give different `Untitled-{n}.mmd` numbers |

## Left out

- The network, `TextDecoder`, `JSON.parse`, `crypto.randomUUID`, the Tauri dialog and file system calls and `localStorage` are outside the model and appear as parameters (`fetch`, `decode`, `chosen`, `write`, `read`, `freshId`). Persistence is modelled only as `Partialize`, `Rehydrate` and `Restart`. A dialog call (`save()` or `open()`) that rejects is not modelled: `chosen` is a path or a cancel. In the source that rejection goes to the `catch` block and shows the `Failed to save file: ` or `Failed to open file: ` alert.
- AIService.StreamChatCompletion: the generator is lazy. The model runs the whole read loop first and returns every fragment with the way reading ended.
- CommandBar.Controller.HandleExecute: the model applies the fragments afterwards in the same order. The store sees the same sequence of updates.
- FileManager.SaveFile: the save runs on one snapshot of the session. In the source, `saveFile` reads `activeFile` before it awaits the dialog and `writeTextFile`, and `markSaved(activeFile.id)` then reads the live store. Code typed while the write is pending is therefore marked clean and copied to the buffers on the same path without being written. A second save started with Ctrl+S meanwhile can interleave in the same way. `SaveSpec` is atomic, so the model does not capture either case.
- CommandBar.Controller.HandleStop: a call that lands while a stream is running is not interleaved with it. Its effect on the stream (the read ending with whatever the transport throws on abort) is part of the `fetch` outcome passed to `HandleExecute`.
- CommandBar.Controller.HandleExecute: the store updates made by other components during a stream are not modelled. The model sends every push to one session. In the source each `updateActiveCode` goes to whichever buffer is active at that moment, and the tab bar is not disabled while `isGenerating` is set. A tab switch during a stream therefore sends the later pushes to the other buffer.
- `alert` is a ghost list of messages on the controller and a returned value in `FileManager`. `console` logging is not modelled.
- AIStore.Store.UpdateProvider: a patch key that is present with the value `undefined` is not modelled. A field is either present with a string or absent.
- AIService.DataLineYield: a delta whose `content` is a truthy non-string (a number, an object) is not modelled. `decode` gives a string content or none.
- The server-sent-events features that the code does not implement are not modelled: `\r` line ends, other fields and multi-line data.
- The rest of the application is not part of this model: the command bar's React effects (focus, click-outside, Esc), diagram rendering and export (`PreviewPanel`, the Rust rasteriser), the editor, the tab bar, the settings dialog and the application shell. They are UI, rendering or floating-point code, and they only forward to the stores.

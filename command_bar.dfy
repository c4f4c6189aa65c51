/**
 The AI command bar (`src/components/CommandBar.tsx`): the cleaning of the
 streamed answer into diagram code, and the controller behind the Enter key and
 the stop button. The answer is cleaned as a whole after every fragment; only a
 cleaned text with some non-whitespace content reaches the code store.
 */
module CommandBar {
  import opened Wrappers
  import opened Text
  import CodeStore
  import AIStore
  import opened AIService

  // ---------------------------------------------------------------------------
  // Fence cleaning
  // ---------------------------------------------------------------------------

  const Fence: string := "```"
  const Language: string := "mermaid"

  /** The ASCII lower case of `c`; every other character is itself. */
  function LowerAscii(c: char): char {
    if 'A' <= c <= 'Z' then (c as int + 32) as char else c
  }

  /** Equal up to ASCII case: the `i` flag of a regular expression without the
      `u` flag folds no letter of `mermaid` to anything outside ASCII. */
  predicate SameIgnoringCase(a: string, b: string) {
    |a| == |b| && forall i :: 0 <= i < |a| ==> LowerAscii(a[i]) == LowerAscii(b[i])
  }

  /** The text starts with `mermaid` in some mix of upper and lower case. */
  predicate StartsWithLanguage(s: string) {
    |s| >= |Language| && SameIgnoringCase(s[..|Language|], Language)
  }

  /** `replace(/^```(mermaid)?\s*\n?/i, '')`: after an opening fence, the
      optional language tag and the whitespace run that follows are removed
      (`\s*` is greedy and takes every newline, so `\n?` matches nothing). */
  function StripOpening(s: string): string {
    if !StartsWith(s, Fence) then s
    else
      var rest := s[|Fence|..];
      TrimStart(if StartsWithLanguage(rest) then rest[|Language|..] else rest)
  }

  /** `/```\s*$/` matches at `p`: a fence there, only whitespace after it. */
  predicate ClosingFenceAt(s: string, p: nat) {
    p + |Fence| <= |s| && s[p..p + |Fence|] == Fence && AllWhitespace(s[p + |Fence|..])
  }

  /** `replace(/```\s*$/, '')`: when the text, its trailing whitespace left
      aside, ends with a fence, the fence and that whitespace go. */
  function StripClosing(s: string): string {
    var t := TrimEnd(s);
    if EndsWith(t, Fence) then t[..|t| - |Fence|] else s
  }

  /** The cleaned view of the accumulated answer. */
  function CleanCode(s: string): string {
    StripClosing(StripOpening(s))
  }

  /** The closing pattern matches at one position at most. */
  lemma ClosingFenceUnique(s: string, p: nat, q: nat)
    requires ClosingFenceAt(s, p) && ClosingFenceAt(s, q)
    ensures p == q
  {
    ClosingAtTrimEnd(s, p);
    ClosingAtTrimEnd(s, q);
  }

  /** StripClosing does what the regular expression replacement does: where the
      pattern matches, the text is cut there; where it matches nowhere, the text
      is unchanged. */
  lemma StripClosingIsReplacement(s: string)
    ensures forall p: nat :: ClosingFenceAt(s, p) ==> StripClosing(s) == s[..p]
    ensures (forall p: nat :: !ClosingFenceAt(s, p)) ==> StripClosing(s) == s
  {
    forall p: nat | ClosingFenceAt(s, p)
      ensures StripClosing(s) == s[..p]
    {
      StripClosingAt(s, p);
    }
    if EndsWith(TrimEnd(s), Fence) {
      ClosingFenceFound(s);
    }
  }

  lemma StripClosingAt(s: string, p: nat)
    requires ClosingFenceAt(s, p)
    ensures StripClosing(s) == s[..p]
  {
    var t := TrimEnd(s);
    ClosingAtTrimEnd(s, p);
    assert t[p..] == s[p..p + |Fence|];
  }

  /** When StripClosing cuts, the pattern matches where it cuts. */
  lemma ClosingFenceFound(s: string)
    requires EndsWith(TrimEnd(s), Fence)
    ensures ClosingFenceAt(s, |TrimEnd(s)| - |Fence|)
  {
    var t := TrimEnd(s);
    var p := |t| - |Fence|;
    assert s[p..p + |Fence|] == t[p..];
  }

  /** Where the closing pattern matches, TrimEnd stops right after the fence. */
  lemma ClosingAtTrimEnd(s: string, p: nat)
    requires ClosingFenceAt(s, p)
    ensures TrimEnd(s) == s[..p + |Fence|]
  {
    var x := s[..p + |Fence|];
    assert s == x + s[p + |Fence|..];
    assert x[|x| - 1] == s[p..p + |Fence|][2] == '`';
    TrimEndExact(x, s[p + |Fence|..]);
  }

  /** A text that does not open with a fence keeps its start. */
  lemma OpeningNeedsFence(s: string)
    requires !StartsWith(s, Fence)
    ensures StripOpening(s) == s
  {
  }

  /** After a fence and an optional language tag in any case, the whitespace is
      removed up to the first character of the code. Without a tag and without
      whitespace, a code that itself starts with the word `mermaid` would lose it,
      so that case is excluded. */
  lemma OpeningStripped(tag: string, w: string, x: string)
    requires tag == [] || SameIgnoringCase(tag, Language)
    requires AllWhitespace(w)
    requires x == [] || !IsWhitespace(x[0])
    requires tag == [] && w == [] ==> !StartsWithLanguage(x)
    ensures StripOpening(Fence + tag + w + x) == x
  {
    if tag != [] {
      OpeningTagged(tag, w, x);
    } else if w != [] {
      assert Fence + tag + w + x == Fence + w + x;
      OpeningUntagged(w, x);
    } else {
      assert Fence + tag + w + x == Fence + x;
      OpeningBare(x);
    }
  }

  lemma OpeningTagged(tag: string, w: string, x: string)
    requires SameIgnoringCase(tag, Language)
    requires AllWhitespace(w)
    requires x == [] || !IsWhitespace(x[0])
    ensures StripOpening(Fence + tag + w + x) == x
  {
    assert Fence + tag + w + x == Fence + (tag + (w + x));
    AfterFence(tag + (w + x));
    TaggedRest(tag, w + x);
    TrimStartExact(w, x);
  }

  lemma OpeningUntagged(w: string, x: string)
    requires w != [] && AllWhitespace(w)
    requires x == [] || !IsWhitespace(x[0])
    ensures StripOpening(Fence + w + x) == x
  {
    assert Fence + w + x == Fence + (w + x);
    AfterFence(w + x);
    UntaggedRest(w + x);
    TrimStartExact(w, x);
  }

  lemma OpeningBare(x: string)
    requires !StartsWithLanguage(x)
    requires x == [] || !IsWhitespace(x[0])
    ensures StripOpening(Fence + x) == x
  {
    AfterFence(x);
    assert TrimStart(x) == x;
  }

  /** Behind a fence, the tag test and TrimStart decide the outcome. */
  lemma AfterFence(y: string)
    ensures StripOpening(Fence + y) == TrimStart(if StartsWithLanguage(y) then y[|Language|..] else y)
  {
    assert (Fence + y)[..|Fence|] == Fence;
    assert (Fence + y)[|Fence|..] == y;
  }

  /** A tag of the language's length that matches it is taken off. */
  lemma TaggedRest(tag: string, y: string)
    requires SameIgnoringCase(tag, Language)
    ensures StartsWithLanguage(tag + y) && (tag + y)[|Language|..] == y
  {
    assert (tag + y)[..|Language|] == tag;
  }

  /** Text starting with whitespace carries no tag. */
  lemma UntaggedRest(y: string)
    requires y != [] && IsWhitespace(y[0])
    ensures !StartsWithLanguage(y)
  {
    if |y| >= |Language| {
      assert y[..|Language|][0] == y[0];
    }
  }

  /** Fencing any code that starts with a non-whitespace character and cleaning
      the result gives the code back. */
  lemma CleanFenced(c: string)
    requires c == [] || !IsWhitespace(c[0])
    ensures CleanCode(Fence + Language + "\n" + c + Fence) == c
  {
    assert Fence + Language + "\n" + c + Fence == Fence + Language + "\n" + (c + Fence);
    assert (c + Fence)[0] == if c == [] then '`' else c[0];
    OpeningStripped(Language, "\n", c + Fence);
    var s := c + Fence;
    assert s[|s| - 1] == '`';
    assert s + [] == s;
    TrimEndExact(s, []);
    assert s[|s| - |Fence|..] == Fence;
    assert s[..|s| - |Fence|] == c;
  }

  /** The fenced answer keeps the newline in front of its closing fence. */
  lemma CleanFencedExample(answer: string)
    requires answer == "```mermaid\ngraph TD\n  A-->B\n```"
    ensures CleanCode(answer) == "graph TD\n  A-->B\n"
  {
    var c := "graph TD\n  A-->B\n";
    assert c[0] == 'g';
    assert answer == Fence + Language + "\n" + c + Fence;
    CleanFenced(c);
  }

  /** Text with no fence in it passes through unchanged, for instance the
      first fragments of an answer that is not fenced at all. */
  lemma FenceFreeUnchanged(s: string)
    requires forall i :: 0 <= i < |s| ==> s[i] != '`'
    ensures CleanCode(s) == s
  {
    if |s| >= |Fence| {
      assert s[..|Fence|][0] == s[0];
    }
    var t := TrimEnd(s);
    if |t| >= |Fence| {
      assert t[|t| - |Fence|..][2] == s[|t| - 1];
    }
  }

  /** Two backticks are not a fence: the text is kept as it is. */
  lemma TwoBackticksUnchanged()
    ensures CleanCode("``") == "``"
  {
    var s := "``";
    assert !StartsWith(s, Fence);
    assert s[|s| - 1] == '`' && s + [] == s;
    TrimEndExact(s, []);
  }

  // ---------------------------------------------------------------------------
  // What the stream loop sends to the store
  // ---------------------------------------------------------------------------

  /** What the loop sends to the store once the accumulated answer is `text`:
      its cleaned view, unless that is blank. */
  function PushAfter(text: string): seq<string> {
    var view := CleanCode(text);
    if IsBlank(view) then [] else [view]
  }

  /** What `push` gives for each prefix of the fragments, prefix by prefix. */
  function PerPrefix(fragments: seq<string>, push: string -> seq<string>): seq<string> {
    if fragments == [] then []
    else PerPrefix(fragments[..|fragments| - 1], push) + push(Concat(fragments))
  }

  /** The texts pushed to the store while `fragments` arrive. */
  function Pushes(fragments: seq<string>): seq<string> {
    PerPrefix(fragments, PushAfter)
  }

  /** Each element of PerPrefix comes from some non-empty prefix. */
  lemma {:induction false} PerPrefixOrigin(fragments: seq<string>, push: string -> seq<string>)
    ensures forall x :: x in PerPrefix(fragments, push) ==>
      exists j :: 0 < j <= |fragments| && x in push(Concat(fragments[..j]))
  {
    if fragments != [] {
      var n := |fragments|;
      var init := fragments[..n - 1];
      PerPrefixOrigin(init, push);
      forall x | x in PerPrefix(fragments, push)
        ensures exists j :: 0 < j <= n && x in push(Concat(fragments[..j]))
      {
        if x in PerPrefix(init, push) {
          var j :| 0 < j <= n - 1 && x in push(Concat(init[..j]));
          assert init[..j] == fragments[..j];
        } else {
          assert fragments[..n] == fragments;
        }
      }
    }
  }

  /** At most one element per prefix when `push` gives at most one. */
  lemma {:induction false} PerPrefixLength(fragments: seq<string>, push: string -> seq<string>)
    requires forall text :: |push(text)| <= 1
    ensures |PerPrefix(fragments, push)| <= |fragments|
  {
    if fragments != [] {
      PerPrefixLength(fragments[..|fragments| - 1], push);
    }
  }

  /** Every push is the non-blank cleaned view of a whole prefix of the answer,
      never of one fragment on its own, and there is at most one per fragment. */
  lemma PushesArePrefixViews(fragments: seq<string>)
    ensures |Pushes(fragments)| <= |fragments|
    ensures forall x :: x in Pushes(fragments) ==>
      !IsBlank(x) && exists j :: 0 < j <= |fragments| && x == CleanCode(Concat(fragments[..j]))
  {
    PerPrefixLength(fragments, PushAfter);
    PerPrefixOrigin(fragments, PushAfter);
    forall x | x in Pushes(fragments)
      ensures !IsBlank(x) && exists j :: 0 < j <= |fragments| && x == CleanCode(Concat(fragments[..j]))
    {
      var j :| 0 < j <= |fragments| && x in PushAfter(Concat(fragments[..j]));
      PushAfterView(Concat(fragments[..j]), x);
    }
  }

  lemma PushAfterView(text: string, x: string)
    requires x in PushAfter(text)
    ensures x == CleanCode(text) && !IsBlank(x)
  {
  }

  /** When the whole answer cleans to something non-blank, that is the last
      push, whatever the fragments were. */
  lemma PushesEndWithWholeAnswer(fragments: seq<string>)
    requires !IsBlank(CleanCode(Concat(fragments)))
    ensures Pushes(fragments) != [] && Last(Pushes(fragments)) == CleanCode(Concat(fragments))
  {
    assert fragments != [];
    var view := CleanCode(Concat(fragments));
    assert PushAfter(Concat(fragments)) == [view];
    PerPrefixEndsWith(fragments, PushAfter, view);
  }

  /** When the whole of the fragments gives exactly `x`, PerPrefix ends with it. */
  lemma PerPrefixEndsWith(fragments: seq<string>, push: string -> seq<string>, x: string)
    requires fragments != [] && push(Concat(fragments)) == [x]
    ensures PerPrefix(fragments, push) != [] && Last(PerPrefix(fragments, push)) == x
  {
  }

  /** Each push applied in turn as `updateActiveCode`. */
  function ApplyAll(s: CodeStore.Session, pushes: seq<string>): CodeStore.Session {
    if pushes == [] then s else CodeStore.CodeUpdated(ApplyAll(s, pushes[..|pushes| - 1]), Last(pushes))
  }

  /** The pushes keep the buffers, their ids and the active buffer, keep the
      session valid, and the active buffer ends holding the last push: a later
      error does not roll it back to the code it had before. */
  lemma {:induction false} ApplyAllLastWins(s: CodeStore.Session, pushes: seq<string>)
    ensures var r := ApplyAll(s, pushes);
      && CodeStore.SameIds(r.files, s.files) && r.activeFileId == s.activeFileId
      && CodeStore.ActiveIndex(r) == CodeStore.ActiveIndex(s)
      && (CodeStore.Valid(s) ==> CodeStore.Valid(r))
      && (pushes != [] && CodeStore.ActiveIndex(s).Some? ==>
            r.files[CodeStore.ActiveIndex(s).value].code == Last(pushes))
  {
    if pushes != [] {
      var m, x := ApplyAll(s, pushes[..|pushes| - 1]), Last(pushes);
      ApplyAllLastWins(s, pushes[..|pushes| - 1]);
      if CodeStore.ActiveIndex(m).Some? {
        CodeStore.CodeUpdatedActiveCode(m, x);
        if m.files[CodeStore.ActiveIndex(m).value].code != x {
          CodeStore.CodeUpdatedEffect(m, x);
        }
      }
      if CodeStore.Valid(s) {
        CodeStore.CodeUpdatedValid(m, x);
      }
    }
  }

  /** Applying two runs of pushes is applying their concatenation. */
  lemma {:induction false} ApplyAllAppend(s: CodeStore.Session, a: seq<string>, b: seq<string>)
    ensures ApplyAll(s, a + b) == ApplyAll(ApplyAll(s, a), b)
    decreases |b|
  {
    if b == [] {
      assert a + b == a;
    } else {
      var init := b[..|b| - 1];
      ApplyAllAppend(s, a, init);
      assert (a + b)[..|a + b| - 1] == a + init;
    }
  }

  /** One more fragment adds what the longer prefix pushes. */
  lemma PushesSnoc(fragments: seq<string>, i: nat)
    requires i < |fragments|
    ensures Pushes(fragments[..i + 1]) == Pushes(fragments[..i]) + PushAfter(Concat(fragments[..i + 1]))
  {
    assert fragments[..i + 1][..i] == fragments[..i];
  }

  // ---------------------------------------------------------------------------
  // The controller
  // ---------------------------------------------------------------------------

  const ApiKeyAlert: string := "Please configure API Key in Settings first (Ctrl+,)"
  const FailureAlert: string := "AI Execution Failed"

  /** The value the transport throws when the request is aborted; the catch
      compares the thrown value itself with this string. */
  const CanceledError: ErrorValue := Raw("Request canceled")

  /** The user message built from the typed requirement. */
  function Requirement(input: string): string {
    "Requirement: " + input + ". \nOutput the FULL updated Mermaid code based on the current code."
  }

  /** The request an edit sends: the requirement as the only user message,
      with the active buffer's code as context. */
  function EditRequest(input: string, provider: AIStore.AIProvider, currentCode: string): ChatRequest {
    BuildRequest([APIMessage(User, Requirement(input))], provider, currentCode)
  }

  /** What the stream of an edit started on session `s` delivers. */
  function EditRun(input: string, provider: AIStore.AIProvider, s: CodeStore.Session,
                   fetch: ChatRequest -> FetchResult, decode: string -> Delta): StreamRun
    requires CodeStore.ActiveIndex(s).Some?
  {
    StreamResult(fetch(EditRequest(input, provider, s.files[CodeStore.ActiveIndex(s).value].code)), decode)
  }

  /** The alerts a finished run shows: none on completion or cancellation, one
      on any other error. */
  function EndAlerts(end: StreamEnd): seq<string> {
    if end.Threw? && end.error != CanceledError then [FailureAlert] else []
  }

  /** An edit starts only with a non-blank requirement, no edit in progress, an
      API key and an active buffer. */
  predicate Starts(input: string, isLoading: bool, provider: AIStore.AIProvider, s: CodeStore.Session) {
    !IsBlank(input) && !isLoading && provider.apiKey != [] && CodeStore.ActiveIndex(s).Some?
  }

  /** With the default provider, whose API key is empty, no edit starts. */
  lemma DefaultProviderBlocksEdits(input: string, isLoading: bool, s: CodeStore.Session)
    ensures !Starts(input, isLoading, AIStore.DefaultProvider, s)
  {
  }

  /** The request's abort switch. */
  class AbortController {
    var aborted: bool

    constructor ()
      ensures !aborted
    {
      aborted := false;
    }

    method Abort()
      modifies this
      ensures aborted
    {
      aborted := true;
    }
  }

  /** The request of an edit and the stream it answers with: the requirement is
      sent with the active buffer's code as context. */
  method RunEdit(input: string, provider: AIStore.AIProvider, s: CodeStore.Session,
                 fetch: ChatRequest -> FetchResult, decode: string -> Delta) returns (run: StreamRun)
    requires CodeStore.ActiveIndex(s).Some?
    ensures run == EditRun(input, provider, s, fetch, decode)
  {
    var originalCode := s.files[CodeStore.ActiveIndex(s).value].code;
    run := StreamChatCompletion([APIMessage(User, Requirement(input))], provider, originalCode, fetch, decode);
  }

  /** One step of that loop once the answer so far is `generated`: its cleaned
      view goes to the store unless it is blank. */
  method PushView(code: CodeStore.Store, generated: string)
    modifies code
    ensures code.State() == ApplyAll(old(code.State()), PushAfter(generated))
    ensures code.chartTheme == old(code.chartTheme)
  {
    var cleanCode := CleanCode(generated);
    if !IsBlank(cleanCode) {
      code.UpdateActiveCode(cleanCode);
      assert [cleanCode][..0] == [];
    }
  }

  /** The `for await` loop of `handleExecute`: the fragments are accumulated, and
      after each one the cleaned view of the whole text so far is pushed to the
      code store when it is not blank. */
  method ApplyFragments(code: CodeStore.Store, fragments: seq<string>)
    modifies code
    ensures code.State() == ApplyAll(old(code.State()), Pushes(fragments))
    ensures code.chartTheme == old(code.chartTheme)
  {
    var generated: string := [];
    var i := 0;
    while i < |fragments|
      invariant 0 <= i <= |fragments|
      invariant generated == Concat(fragments[..i])
      invariant code.State() == ApplyAll(old(code.State()), Pushes(fragments[..i]))
      invariant code.chartTheme == old(code.chartTheme)
    {
      ConcatSnoc(fragments, i);
      PushesSnoc(fragments, i);
      generated := generated + fragments[i];
      ApplyAllAppend(old(code.State()), Pushes(fragments[..i]), PushAfter(generated));
      PushView(code, generated);
      i := i + 1;
    }
    assert fragments[..i] == fragments;
  }

  /** The command bar's own state, and the two stores it works on. */
  class Controller {
    const ai: AIStore.Store
    const code: CodeStore.Store
    var input: string
    var isLoading: bool
    var abortRef: AbortController?
    /** The alerts shown so far, in order. */
    ghost var alerts: seq<string>

    constructor (ai: AIStore.Store, code: CodeStore.Store)
      ensures this.ai == ai && this.code == code
      ensures input == [] && !isLoading && abortRef == null && alerts == []
    {
      this.ai, this.code := ai, code;
      input, isLoading, abortRef := [], false, null;
      alerts := [];
    }

    /** `handleStop`: abort the request in flight, if any, and clear the flags. */
    method HandleStop()
      modifies this, ai, abortRef
      ensures old(abortRef) != null ==> old(abortRef).aborted
      ensures abortRef == null && !isLoading && !ai.isGenerating
      ensures input == old(input) && alerts == old(alerts)
      ensures ai.provider == old(ai.provider)
      ensures ai.isSettingsOpen == old(ai.isSettingsOpen) && ai.isCommandBarOpen == old(ai.isCommandBarOpen)
    {
      if abortRef != null {
        abortRef.Abort();
        abortRef := null;
      }
      isLoading := false;
      ai.SetGenerating(false);
    }

    /** `handleExecute`: the guards, then one streamed edit of the active buffer.
        Every cleaned, non-blank view of the answer so far is pushed to the code
        store; whatever way the stream ends, the flags are cleared and nothing is
        rolled back. */
    method HandleExecute(fetch: ChatRequest -> FetchResult, decode: string -> Delta)
      modifies this, ai, code
      ensures ai.provider == old(ai.provider)
      ensures ai.isSettingsOpen == old(ai.isSettingsOpen) && ai.isCommandBarOpen == old(ai.isCommandBarOpen)
      ensures code.chartTheme == old(code.chartTheme)
      ensures IsBlank(old(input)) || old(isLoading) ==> unchanged(this, ai, code)
      ensures !IsBlank(old(input)) && !old(isLoading) && old(ai.provider.apiKey) == [] ==>
        && unchanged(ai, code) && alerts == old(alerts) + [ApiKeyAlert]
        && input == old(input) && isLoading == old(isLoading) && abortRef == old(abortRef)
      ensures (!IsBlank(old(input)) && !old(isLoading) && old(ai.provider.apiKey) != [] &&
               CodeStore.ActiveIndex(old(code.State())).None?) ==> unchanged(this, ai, code)
      ensures Starts(old(input), old(isLoading), old(ai.provider), old(code.State())) ==>
        var run := EditRun(old(input), old(ai.provider), old(code.State()), fetch, decode);
        && code.State() == ApplyAll(old(code.State()), Pushes(run.fragments))
        && input == (if run.end.Finished? then [] else old(input))
        && alerts == old(alerts) + EndAlerts(run.end)
        && !isLoading && !ai.isGenerating && abortRef == null
    {
      if IsBlank(input) || isLoading {
        return;
      }
      if ai.provider.apiKey == [] {
        alerts := alerts + [ApiKeyAlert];
        return;
      }
      var active := CodeStore.ActiveIndex(code.State());
      if active.None? {
        return;
      }
      Execute(fetch, decode);
    }

    /** The part of `handleExecute` after the guards: the flags are set, the
        stream is consumed, and the `finally` block clears them again. */
    method Execute(fetch: ChatRequest -> FetchResult, decode: string -> Delta)
      requires Starts(input, isLoading, ai.provider, code.State())
      modifies this, ai, code
      ensures ai.provider == old(ai.provider)
      ensures ai.isSettingsOpen == old(ai.isSettingsOpen) && ai.isCommandBarOpen == old(ai.isCommandBarOpen)
      ensures code.chartTheme == old(code.chartTheme)
      ensures var run := EditRun(old(input), old(ai.provider), old(code.State()), fetch, decode);
        && code.State() == ApplyAll(old(code.State()), Pushes(run.fragments))
        && input == (if run.end.Finished? then [] else old(input))
        && alerts == old(alerts) + EndAlerts(run.end)
        && !isLoading && !ai.isGenerating && abortRef == null
    {
      var run := RunEdit(input, ai.provider, code.State(), fetch, decode);
      Consume(run);
    }

    /** The flags are set, the stream's fragments are applied, the requirement is
        cleared only when the stream finished, an error other than the
        cancellation raises the failure alert, and the `finally` block clears the
        flags again. */
    method Consume(run: StreamRun)
      modifies this, ai, code
      ensures ai.provider == old(ai.provider)
      ensures ai.isSettingsOpen == old(ai.isSettingsOpen) && ai.isCommandBarOpen == old(ai.isCommandBarOpen)
      ensures code.chartTheme == old(code.chartTheme)
      ensures code.State() == ApplyAll(old(code.State()), Pushes(run.fragments))
      ensures input == (if run.end.Finished? then [] else old(input))
      ensures alerts == old(alerts) + EndAlerts(run.end)
      ensures !isLoading && !ai.isGenerating && abortRef == null
    {
      isLoading := true;
      ai.SetGenerating(true);
      abortRef := new AbortController();
      ApplyFragments(code, run.fragments);
      if run.end.Finished? {
        input := [];
      } else if run.end.error != CanceledError {
        alerts := alerts + [FailureAlert];
      }
      isLoading, abortRef := false, null;
      ai.SetGenerating(false);
    }
  }
}

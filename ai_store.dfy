/**
 The AI configuration store (`src/store/aiStore.ts`): the provider connection
 settings, which are persisted, and three UI flags, which are not.
 */
module AIStore {
  import opened Wrappers

  datatype AIProvider = AIProvider(id: string, name: string, baseUrl: string, apiKey: string, model: string)

  /** `Partial<AIProvider>`: a field is present (Some) or left out (None). */
  datatype ProviderPatch = ProviderPatch(
    id: Option<string>, name: Option<string>, baseUrl: Option<string>,
    apiKey: Option<string>, model: Option<string>)

  const NoChange: ProviderPatch := ProviderPatch(None, None, None, None, None)

  /** The provider in force until the user edits the settings: no API key. */
  const DefaultProvider: AIProvider :=
    AIProvider("custom", "Custom OpenAI", "https://api.openai.com/v1", "", "gpt-4o")

  function Pick(field: Option<string>, current: string): string {
    if field.Some? then field.value else current
  }

  /** `{ ...provider, ...partial }`. */
  function Merged(p: AIProvider, patch: ProviderPatch): AIProvider {
    AIProvider(Pick(patch.id, p.id), Pick(patch.name, p.name), Pick(patch.baseUrl, p.baseUrl),
               Pick(patch.apiKey, p.apiKey), Pick(patch.model, p.model))
  }

  /** The patch applying `first` and then `second`. */
  function Then(first: ProviderPatch, second: ProviderPatch): ProviderPatch {
    ProviderPatch(
      if second.id.Some? then second.id else first.id,
      if second.name.Some? then second.name else first.name,
      if second.baseUrl.Some? then second.baseUrl else first.baseUrl,
      if second.apiKey.Some? then second.apiKey else first.apiKey,
      if second.model.Some? then second.model else first.model)
  }

  /** A merge overwrites exactly the fields present in the patch: a field takes
      the patch's value when present and keeps its old value when absent. */
  lemma MergedOverwritesPresent(p: AIProvider, patch: ProviderPatch)
    ensures var r := Merged(p, patch);
      && (patch.id.Some? ==> r.id == patch.id.value) && (patch.id.None? ==> r.id == p.id)
      && (patch.name.Some? ==> r.name == patch.name.value) && (patch.name.None? ==> r.name == p.name)
      && (patch.baseUrl.Some? ==> r.baseUrl == patch.baseUrl.value) && (patch.baseUrl.None? ==> r.baseUrl == p.baseUrl)
      && (patch.apiKey.Some? ==> r.apiKey == patch.apiKey.value) && (patch.apiKey.None? ==> r.apiKey == p.apiKey)
      && (patch.model.Some? ==> r.model == patch.model.value) && (patch.model.None? ==> r.model == p.model)
  {
  }

  /** The empty patch changes nothing, applying a patch twice is applying it
      once, and two merges in a row are one merge of the combined patch. */
  lemma MergedLaws(p: AIProvider, q1: ProviderPatch, q2: ProviderPatch)
    ensures Merged(p, NoChange) == p
    ensures Merged(Merged(p, q1), q1) == Merged(p, q1)
    ensures Merged(Merged(p, q1), q2) == Merged(p, Then(q1, q2))
  {
  }

  class Store {
    var provider: AIProvider
    var isSettingsOpen: bool
    var isCommandBarOpen: bool
    var isGenerating: bool

    /** First start: the default provider, every flag off. */
    constructor ()
      ensures provider == DefaultProvider
      ensures !isSettingsOpen && !isCommandBarOpen && !isGenerating
    {
      provider := DefaultProvider;
      isSettingsOpen, isCommandBarOpen, isGenerating := false, false, false;
    }

    /** A restart: only the provider was persisted, so every flag is off again. */
    constructor Rehydrate(saved: AIProvider)
      ensures provider == saved
      ensures !isSettingsOpen && !isCommandBarOpen && !isGenerating
    {
      provider := saved;
      isSettingsOpen, isCommandBarOpen, isGenerating := false, false, false;
    }

    /** `partialize`: only the provider is written to storage. */
    function Partialize(): AIProvider
      reads this
    {
      provider
    }

    /** A reload: a new store rehydrated from what `Partialize` wrote has the
        same provider, and the three flags are off whatever they were. */
    method Restart() returns (r: Store)
      ensures fresh(r) && r.provider == provider
      ensures !r.isSettingsOpen && !r.isCommandBarOpen && !r.isGenerating
    {
      r := new Store.Rehydrate(Partialize());
    }

    method UpdateProvider(patch: ProviderPatch)
      modifies this
      ensures provider == Merged(old(provider), patch)
      ensures isSettingsOpen == old(isSettingsOpen) && isCommandBarOpen == old(isCommandBarOpen)
      ensures isGenerating == old(isGenerating)
    {
      provider := Merged(provider, patch);
    }

    method SetSettingsOpen(isOpen: bool)
      modifies this
      ensures isSettingsOpen == isOpen && provider == old(provider)
      ensures isCommandBarOpen == old(isCommandBarOpen) && isGenerating == old(isGenerating)
    {
      isSettingsOpen := isOpen;
    }

    method SetCommandBarOpen(isOpen: bool)
      modifies this
      ensures isCommandBarOpen == isOpen && provider == old(provider)
      ensures isSettingsOpen == old(isSettingsOpen) && isGenerating == old(isGenerating)
    {
      isCommandBarOpen := isOpen;
    }

    method SetGenerating(generating: bool)
      modifies this
      ensures isGenerating == generating && provider == old(provider)
      ensures isSettingsOpen == old(isSettingsOpen) && isCommandBarOpen == old(isCommandBarOpen)
    {
      isGenerating := generating;
    }
  }
}

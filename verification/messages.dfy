/**
 * The messages the background scripts send to a tab and the log of
 * observable effects (messages sent, scripts injected, context-menu updates,
 * requests to the Ollama server) that the orchestration models record.
 */
module Messages {
  import opened JsString

  /**
   * The `explanation` field of a `showExplanation` message: src/background.js
   * sends `{index, content}` chunks, background.js the whole response string.
   */
  datatype Explanation = Chunk(index: nat, content: string) | Whole(text: string)

  /** A message to the content script, by its `action`. */
  datatype Message =
    | ShowProcessing(message: string)
    | ShowExplanation(explanation: Explanation)
    | ShowError(error: string)
    | Ping
    | Other(action: string)

  /** One observable effect of a background script. */
  datatype Event =
    | Sent(msg: Message)                 // chrome.tabs.sendMessage to the tab
    | Inject(file: string)               // chrome.scripting.executeScript({files: [file]})
    | ExtractPage                        // chrome.scripting.executeScript({func: getPageContent})
    | MenuUpdate(enabled: bool)          // chrome.contextMenus.update(..., {enabled})
    | Request(url: string, model: string, selection: string, context: string)
                                         // the request to the Ollama server

  const ContentScript: string := "content.js"
  const ProcessingText: string := "Generating explanation..."
  const ContextUnavailable: string := "Context unavailable"
  const DefaultOllamaUrl: string := "http://localhost:11434"
  const DefaultModel: string := "llama3"

  /** The wrapper both background scripts put around a failed API call. */
  function ApiError(msg: string): string {
    "Ollama API error: " + msg + ". Please ensure Ollama is running and accessible."
  }

  /** What `chrome.storage.sync.get` yields: the stored values, if any, or a failure. */
  datatype Storage = Stored(ollamaUrl: Option<string>, model: Option<string>) | StorageFailed(message: string)

  /** The settings after the defaults passed to `chrome.storage.sync.get` fill the gaps. */
  datatype Settings = Settings(ollamaUrl: string, model: string)

  function EffectiveSettings(stored: Storage): (r: Settings)
    requires stored.Stored?
    ensures stored.ollamaUrl.None? ==> r.ollamaUrl == DefaultOllamaUrl
    ensures stored.ollamaUrl.Some? ==> r.ollamaUrl == stored.ollamaUrl.value
    ensures stored.model.None? ==> r.model == DefaultModel
    ensures stored.model.Some? ==> r.model == stored.model.value
  {
    Settings(
      if stored.ollamaUrl.Some? then stored.ollamaUrl.value else DefaultOllamaUrl,
      if stored.model.Some? then stored.model.value else DefaultModel)
  }

  predicate IsError(e: Event) {
    e.Sent? && e.msg.ShowError?
  }

  /** How many `showError` messages a log holds. */
  function ErrorCount(log: seq<Event>): (n: nat)
    ensures n <= |log|
    ensures n == 0 <==> forall i :: 0 <= i < |log| ==> !IsError(log[i])
  {
    if log == [] then 0
    else ErrorCount(log[..|log| - 1]) + (if IsError(log[|log| - 1]) then 1 else 0)
  }

  /** How many injections of `file` a log holds. */
  function InjectCount(log: seq<Event>, file: string): (n: nat)
    ensures n <= |log|
    ensures n == 0 <==> forall i :: 0 <= i < |log| ==> log[i] != Inject(file)
  {
    if log == [] then 0
    else InjectCount(log[..|log| - 1], file) + (if log[|log| - 1] == Inject(file) then 1 else 0)
  }

  /** The `explanation` payloads of the `showExplanation` messages of a log, in order. */
  function Explanations(log: seq<Event>): (r: seq<Explanation>)
    ensures |r| <= |log|
  {
    if log == [] then []
    else
      var last := log[|log| - 1];
      Explanations(log[..|log| - 1]) + (if last.Sent? && last.msg.ShowExplanation? then [last.msg.explanation] else [])
  }

  lemma ExplanationsOfOne(e: Event)
    ensures Explanations([e]) == if e.Sent? && e.msg.ShowExplanation? then [e.msg.explanation] else []
  {
    assert [e][..0] == [];
  }

  lemma ErrorCountOfOne(e: Event)
    ensures ErrorCount([e]) == if IsError(e) then 1 else 0
  {
    assert [e][..0] == [];
  }

  lemma {:induction false} ExplanationsAppend(a: seq<Event>, b: seq<Event>)
    ensures Explanations(a + b) == Explanations(a) + Explanations(b)
    decreases |b|
  {
    if b == [] {
      assert a + b == a;
    } else {
      var b' := b[..|b| - 1];
      assert (a + b)[..|a + b| - 1] == a + b';
      ExplanationsAppend(a, b');
    }
  }

  lemma {:induction false} ErrorCountAppend(a: seq<Event>, b: seq<Event>)
    ensures ErrorCount(a + b) == ErrorCount(a) + ErrorCount(b)
    decreases |b|
  {
    if b == [] {
      assert a + b == a;
    } else {
      var b' := b[..|b| - 1];
      assert (a + b)[..|a + b| - 1] == a + b';
      ErrorCountAppend(a, b');
    }
  }

  lemma {:induction false} InjectCountAppend(a: seq<Event>, b: seq<Event>, file: string)
    ensures InjectCount(a + b, file) == InjectCount(a, file) + InjectCount(b, file)
    decreases |b|
  {
    if b == [] {
      assert a + b == a;
    } else {
      var b' := b[..|b| - 1];
      assert (a + b)[..|a + b| - 1] == a + b';
      InjectCountAppend(a, b', file);
    }
  }
}

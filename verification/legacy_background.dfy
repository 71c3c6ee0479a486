/**
 * The control logic of the older background.js: no menu disabling and no
 * handshake. Every message sent through `sendMessageToTab` re-injects
 * content.js first, and `explainWithOllama` makes one non-streaming request
 * and answers with the whole response.
 */
module LegacyBackground {
  import opened JsString
  import opened Messages

  const MenuItemId: string := "explain-selection"
  const GeneratePath: string := "/api/generate"
  const NoResponseText: string := "No response from Ollama API"
  const CorsText: string :=
    "Cannot access Ollama API due to CORS restrictions. Please see the extension's README for setup instructions."

  /** What `fetch(.../api/generate)` and `response.json()` do. */
  datatype Fetch =
    | FetchRejected(message: string)   // fetch rejects
    | NoResponse                       // fetch resolves to a falsy value
    | BadJson                          // response.json() rejects (an opaque no-cors response)
    | Json(response: string)           // data.response

  /** What `executeScript({func: getPageContent})` settles with. */
  datatype PageScript = Results(results: seq<string>) | ScriptRejected

  /** Everything outside the script that decides what it does after a click. */
  datatype World = World(
    tabFound: bool,     // chrome.tabs.get reports no error
    injectOk: bool,     // injecting content.js succeeds
    page: PageScript,
    storage: Storage,
    fetch: Fetch)

  /** `sendMessageToTab`: look the tab up, inject content.js, then send. */
  function SendToTab(tabFound: bool, injectOk: bool, m: Message): (r: seq<Event>)
    ensures Sent(m) in r <==> tabFound && injectOk
    ensures r != [] ==> r[0] == Inject(ContentScript)
  {
    if !tabFound then []
    else [Inject(ContentScript)] + (if injectOk then [Sent(m)] else [])
  }

  /** The one message that settles the request. */
  function Outcome(fetch: Fetch): (r: Message)
    ensures r.ShowExplanation? <==> fetch.Json?
    ensures r.ShowExplanation? || r.ShowError?
  {
    match fetch
    case FetchRejected(m) => ShowError(ApiError(m))
    case NoResponse => ShowError(ApiError(NoResponseText))
    case BadJson => ShowError(CorsText)
    case Json(r) => ShowExplanation(Whole(r))
  }

  /** Everything `explainWithOllama(selection, context, tab)` does. */
  function ExplainEvents(selection: string, context: string, w: World): seq<Event> {
    match w.storage
    case StorageFailed(m) => [Sent(ShowError(m))]
    case Stored(_, _) =>
      var s := EffectiveSettings(w.storage);
      SendToTab(w.tabFound, w.injectOk, ShowProcessing(ProcessingText))
      + [Request(s.ollamaUrl + GeneratePath, s.model, selection, context), Sent(Outcome(w.fetch))]
  }

  /** Everything the `contextMenus.onClicked` listener does. */
  function ClickEvents(menuItemId: string, selection: string, tabValid: bool, w: World): seq<Event> {
    if menuItemId != MenuItemId || !tabValid then []
    else
      [ExtractPage] +
      match w.page
      case ScriptRejected => ExplainEvents(selection, ContextUnavailable, w)
      case Results(rs) => if |rs| > 0 then ExplainEvents(selection, rs[0], w) else []
  }

  class LegacyBackground {
    var log: seq<Event>

    constructor ()
      ensures log == []
    {
      log := [];
    }

    method SendMessageToTab(tabFound: bool, injectOk: bool, m: Message)
      modifies this
      ensures log == old(log) + SendToTab(tabFound, injectOk, m)
    {
      if !tabFound {
        return;
      }
      log := log + [Inject(ContentScript)];
      if injectOk {
        log := log + [Sent(m)];
      }
    }

    method ExplainWithOllama(selection: string, context: string, w: World)
      modifies this
      ensures log == old(log) + ExplainEvents(selection, context, w)
    {
      if w.storage.StorageFailed? {
        log := log + [Sent(ShowError(w.storage.message))];
        return;
      }
      var settings := EffectiveSettings(w.storage);
      SendMessageToTab(w.tabFound, w.injectOk, ShowProcessing(ProcessingText));
      log := log + [Request(settings.ollamaUrl + GeneratePath, settings.model, selection, context)];
      var reply: Message;
      match w.fetch {
        case FetchRejected(m) => reply := ShowError(ApiError(m));
        case NoResponse => reply := ShowError(ApiError(NoResponseText));
        case BadJson => reply := ShowError(CorsText);
        case Json(r) => reply := ShowExplanation(Whole(r));
      }
      log := log + [Sent(reply)];
    }

    method OnClicked(menuItemId: string, selection: string, tabValid: bool, w: World)
      modifies this
      ensures log == old(log) + ClickEvents(menuItemId, selection, tabValid, w)
    {
      if menuItemId != MenuItemId || !tabValid {
        return;
      }
      log := log + [ExtractPage];
      ghost var before := log;
      match w.page {
        case ScriptRejected =>
          ExplainWithOllama(selection, ContextUnavailable, w);
          assert log == before + ExplainEvents(selection, ContextUnavailable, w);
        case Results(rs) =>
          if |rs| > 0 {
            ExplainWithOllama(selection, rs[0], w);
            assert log == before + ExplainEvents(selection, rs[0], w);
          } else {
            assert log == before + [];
          }
      }
    }
  }
}

/** What the spec functions of background.js promise. */
module LegacyBackgroundFacts {
  import opened JsString
  import opened Messages
  import opened LegacyBackground

  /** Whether a message settles the request: an explanation or an error. */
  predicate IsTerminal(e: Event) {
    e.Sent? && (e.msg.ShowExplanation? || e.msg.ShowError?)
  }

  function TerminalCount(log: seq<Event>): (n: nat)
    ensures n == 0 <==> forall i :: 0 <= i < |log| ==> !IsTerminal(log[i])
  {
    if log == [] then 0
    else TerminalCount(log[..|log| - 1]) + (if IsTerminal(log[|log| - 1]) then 1 else 0)
  }

  /** Every message that reaches the tab through `sendMessageToTab` follows an injection of content.js. */
  lemma EverySendFollowsInjection(tabFound: bool, injectOk: bool, m: Message)
    ensures var events := SendToTab(tabFound, injectOk, m);
      forall i :: 0 <= i < |events| && events[i].Sent? ==> i > 0 && events[i - 1] == Inject("content.js")
    ensures !tabFound ==> SendToTab(tabFound, injectOk, m) == []
  {
  }

  /**
   * The request is settled by exactly one message, sent straight to the tab
   * after the request: the whole `data.response` on success, the CORS text
   * when the body cannot be parsed, the API wrapper otherwise.
   */
  lemma ExactlyOneTerminalMessage(selection: string, context: string, w: World)
    ensures var events := ExplainEvents(selection, context, w);
      && TerminalCount(events) == 1
      && (w.storage.Stored? ==> events[|events| - 1] == Sent(Outcome(w.fetch)))
      && (w.storage.StorageFailed? ==> events == [Sent(ShowError(w.storage.message))])
  {
    var events := ExplainEvents(selection, context, w);
    if w.storage.StorageFailed? {
      assert events[..0] == [];
    } else {
      var pre := SendToTab(w.tabFound, w.injectOk, ShowProcessing(ProcessingText));
      var s := EffectiveSettings(w.storage);
      var req := Request(s.ollamaUrl + GeneratePath, s.model, selection, context);
      assert TerminalCount(pre) == 0;
      assert events[..|events| - 1] == pre + [req];
      assert (pre + [req])[..|pre|] == pre;
      assert TerminalCount(pre + [req]) == 0;
    }
  }

  /** The request goes to `{ollamaUrl}/api/generate`, with the defaults when nothing is stored. */
  lemma RequestUsesDefaults(selection: string, context: string, w: World)
    requires w.storage == Stored(None, None)
    ensures Request("http://localhost:11434/api/generate", "llama3", selection, context)
      in ExplainEvents(selection, context, w)
  {
    var events := ExplainEvents(selection, context, w);
    assert events[|events| - 2] == Request("http://localhost:11434/api/generate", "llama3", selection, context);
  }

  /** This variant never touches the context menu. */
  lemma NoMenuUpdates(menuItemId: string, selection: string, tabValid: bool, w: World)
    ensures forall e :: e in ClickEvents(menuItemId, selection, tabValid, w) ==> !e.MenuUpdate?
  {
  }

  /** Empty results explain nothing; a rejected page script falls back to "Context unavailable". */
  lemma ClickFallbacks(selection: string, w: World)
    ensures w.page == Results([]) ==> ClickEvents("explain-selection", selection, true, w) == [ExtractPage]
    ensures w.page == ScriptRejected ==>
      ClickEvents("explain-selection", selection, true, w) == [ExtractPage] + ExplainEvents(selection, "Context unavailable", w)
  {
  }
}

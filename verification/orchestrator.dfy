/**
 * The control logic of src/background.js: the context-menu click handler,
 * the ping/pong handshake that decides whether to inject the content script,
 * and the streaming `explainWithOllama` that forwards numbered chunks.
 *
 * Everything chrome and the Ollama server decide is an input (`World`); what
 * the script does is recorded in the `log` of a `Background`, and the spec
 * functions below give that log outright for every input.
 */
module Orchestrator {
  import opened JsString
  import opened Messages

  const MenuItemId: string := "lookup-selection"
  const Pong: string := "pong"

  /** One element of the streamed chat response: `{message: {content}, done}`. */
  datatype StreamChunk = StreamChunk(content: string, done: bool)

  /**
   * What `ollamaClient.chat({stream: true})` does: it rejects, or it yields
   * `chunks` and then either ends or (when `failure` is set) throws.
   */
  datatype Chat = ChatRejected(message: string) | Streamed(chunks: seq<StreamChunk>, failure: Option<string>)

  /** What `executeScript({func: getPageContent})` settles with. */
  datatype PageScript = Results(results: seq<string>) | ScriptRejected

  /** Everything outside the script that decides what it does after a click. */
  datatype World = World(
    ping: Option<string>,   // the `status` of the reply to `ping`; None when it is rejected or has none
    injectOk: bool,         // injecting content.js succeeds
    page: PageScript,
    storage: Storage,
    chat: Chat)

  /** The position of the first `done` chunk, or the length when there is none. */
  function FirstDone(chunks: seq<StreamChunk>): (n: nat)
    ensures n <= |chunks|
    ensures forall i :: 0 <= i < n ==> !chunks[i].done
    ensures n < |chunks| ==> chunks[n].done
  {
    if chunks == [] || chunks[0].done then 0 else 1 + FirstDone(chunks[1..])
  }

  /** The `showExplanation` messages for the first `n` chunks, numbered from 0. */
  function ChunkEvents(chunks: seq<StreamChunk>, n: nat): (r: seq<Event>)
    requires n <= |chunks|
    ensures |r| == n
  {
    if n == 0 then []
    else ChunkEvents(chunks, n - 1) + [Sent(ShowExplanation(Chunk(n - 1, chunks[n - 1].content)))]
  }

  /** What the chat outcome adds to the log once the request is made. */
  function ChatEvents(chat: Chat): seq<Event> {
    match chat
    case ChatRejected(m) => [Sent(ShowError(ApiError(m)))]
    case Streamed(chunks, failure) =>
      var n := FirstDone(chunks);
      ChunkEvents(chunks, n) + (if n == |chunks| && failure.Some? then [Sent(ShowError(ApiError(failure.value)))] else [])
  }

  /** The processing message and the chat request, once the settings are read. */
  function Preamble(s: Settings, selection: string, context: string): seq<Event> {
    [Sent(ShowProcessing(ProcessingText)), Request(s.ollamaUrl, s.model, selection, context)]
  }

  /** Everything `explainWithOllama(selection, context, tab)` does. */
  function ExplainEvents(selection: string, context: string, storage: Storage, chat: Chat): seq<Event> {
    match storage
    case StorageFailed(m) => [Sent(ShowError(m))]
    case Stored(_, _) =>
      Preamble(EffectiveSettings(storage), selection, context) + ChatEvents(chat)
  }

  /** `ensureContentScriptLoaded`: ping, then inject unless the reply is `{status: "pong"}`. */
  function Handshake(ping: Option<string>): seq<Event> {
    [Sent(Ping)] + (if ping == Some(Pong) then [] else [Inject(ContentScript)])
  }

  /** Whether the handshake settles successfully. */
  predicate HandshakeOk(w: World) {
    w.ping == Some(Pong) || w.injectOk
  }

  /** What happens after the handshake succeeds: read the page, explain, re-enable. */
  function AfterHandshake(selection: string, w: World): seq<Event> {
    [ExtractPage] +
    match w.page
    case ScriptRejected => ExplainEvents(selection, ContextUnavailable, w.storage, w.chat) + [MenuUpdate(true)]
    case Results(rs) =>
      if |rs| > 0 then ExplainEvents(selection, rs[0], w.storage, w.chat) + [MenuUpdate(true)]
      else [MenuUpdate(true)]
  }

  /** Everything the `contextMenus.onClicked` listener does. */
  function ClickEvents(menuItemId: string, selection: string, tabValid: bool, w: World): seq<Event> {
    if menuItemId != MenuItemId then []
    else if !tabValid then [MenuUpdate(false)]
    else
      [MenuUpdate(false)] + Handshake(w.ping) +
      (if HandshakeOk(w) then AfterHandshake(selection, w) else [MenuUpdate(true)])
  }

  /** The background service worker: the menu item's enabled flag and what it has done. */
  class Background {
    var menuEnabled: bool
    var log: seq<Event>

    constructor ()
      ensures menuEnabled && log == []
    {
      menuEnabled := true;
      log := [];
    }

    method UpdateMenu(enabled: bool)
      modifies this
      ensures menuEnabled == enabled
      ensures log == old(log) + [MenuUpdate(enabled)]
    {
      menuEnabled := enabled;
      log := log + [MenuUpdate(enabled)];
    }

    method Send(m: Message)
      modifies this
      ensures menuEnabled == old(menuEnabled)
      ensures log == old(log) + [Sent(m)]
    {
      log := log + [Sent(m)];
    }

    method EnsureContentScriptLoaded(ping: Option<string>, injectOk: bool) returns (ok: bool)
      modifies this
      ensures ok <==> ping == Some(Pong) || injectOk
      ensures menuEnabled == old(menuEnabled)
      ensures log == old(log) + Handshake(ping)
    {
      Send(Ping);
      if ping == Some(Pong) {
        return true;
      }
      log := log + [Inject(ContentScript)];
      ok := injectOk;
    }

    /**
     * The `for await` loop: forward each chunk with the next index, and stop
     * at the first `done` chunk, which is not forwarded.
     */
    method ForwardChunks(chunks: seq<StreamChunk>) returns (index: nat)
      modifies this
      ensures index == FirstDone(chunks)
      ensures menuEnabled == old(menuEnabled)
      ensures log == old(log) + ChunkEvents(chunks, index)
    {
      index := 0;
      while index < |chunks|
        invariant index <= |chunks|
        invariant forall i :: 0 <= i < index ==> !chunks[i].done
        invariant menuEnabled == old(menuEnabled)
        invariant log == old(log) + ChunkEvents(chunks, index)
      {
        if chunks[index].done {
          break;
        }
        Send(ShowExplanation(Chunk(index, chunks[index].content)));
        index := index + 1;
      }
    }

    /** The `try` block after the request: forward the stream or report the API error. */
    method StreamChat(chat: Chat)
      modifies this
      ensures menuEnabled == old(menuEnabled)
      ensures log == old(log) + ChatEvents(chat)
    {
      match chat {
        case ChatRejected(m) =>
          Send(ShowError(ApiError(m)));
        case Streamed(chunks, failure) =>
          var n := ForwardChunks(chunks);
          if n == |chunks| && failure.Some? {
            Send(ShowError(ApiError(failure.value)));
          }
      }
    }

    method ExplainWithOllama(selection: string, context: string, storage: Storage, chat: Chat)
      modifies this
      ensures menuEnabled == old(menuEnabled)
      ensures log == old(log) + ExplainEvents(selection, context, storage, chat)
    {
      if storage.StorageFailed? {
        Send(ShowError(storage.message));
        return;
      }
      var settings := EffectiveSettings(storage);
      Send(ShowProcessing(ProcessingText));
      log := log + [Request(settings.ollamaUrl, settings.model, selection, context)];
      ghost var before := log;
      StreamChat(chat);
      assert log == before + ChatEvents(chat);
    }

    /** The `.then` chain after the handshake: read the page, explain, re-enable the item. */
    method ReadPageAndExplain(selection: string, w: World)
      modifies this
      ensures menuEnabled
      ensures log == old(log) + AfterHandshake(selection, w)
    {
      log := log + [ExtractPage];
      ghost var before := log;
      match w.page {
        case ScriptRejected =>
          ExplainWithOllama(selection, ContextUnavailable, w.storage, w.chat);
          UpdateMenu(true);
          assert log == before + (ExplainEvents(selection, ContextUnavailable, w.storage, w.chat) + [MenuUpdate(true)]);
        case Results(rs) =>
          if |rs| > 0 {
            ExplainWithOllama(selection, rs[0], w.storage, w.chat);
            UpdateMenu(true);
            assert log == before + (ExplainEvents(selection, rs[0], w.storage, w.chat) + [MenuUpdate(true)]);
          } else {
            UpdateMenu(true);
          }
      }
    }

    method OnClicked(menuItemId: string, selection: string, tabValid: bool, w: World)
      modifies this
      ensures menuEnabled == if menuItemId != MenuItemId then old(menuEnabled) else tabValid
      ensures log == old(log) + ClickEvents(menuItemId, selection, tabValid, w)
    {
      if menuItemId != MenuItemId {
        return;
      }
      UpdateMenu(false);
      if !tabValid {
        return;
      }
      var loaded := EnsureContentScriptLoaded(w.ping, w.injectOk);
      if !loaded {
        UpdateMenu(true);
      } else {
        ReadPageAndExplain(selection, w);
      }
    }
  }
}

/** What the spec functions of src/background.js promise. */
module OrchestratorFacts {
  import opened JsString
  import opened Messages
  import opened Orchestrator

  /** The handshake pings first and injects content.js exactly when the reply is not pong. */
  lemma HandshakeInjectsUnlessPong(ping: Option<string>)
    ensures Handshake(ping)[0] == Sent(Ping)
    ensures InjectCount(Handshake(ping), ContentScript) == if ping == Some(Pong) then 0 else 1
  {
    var h := Handshake(ping);
    if ping == Some(Pong) {
      assert h == [Sent(Ping)];
      assert h[..0] == [];
    } else {
      assert h[..1] == [Sent(Ping)] && h[..1][..0] == [];
    }
  }

  lemma {:induction false} ChunkEventsCarryIndices(chunks: seq<StreamChunk>, n: nat)
    requires n <= |chunks|
    ensures var ex := Explanations(ChunkEvents(chunks, n));
      |ex| == n && forall i :: 0 <= i < n ==> ex[i] == Chunk(i, chunks[i].content)
  {
    if n > 0 {
      ChunkEventsCarryIndices(chunks, n - 1);
      ChunkEventsStep(chunks, n);
      NumberedAppend(Explanations(ChunkEvents(chunks, n - 1)), chunks, n);
    }
  }

  /** Numbering the next chunk after `n - 1` numbered ones numbers all `n`. */
  lemma NumberedAppend(before: seq<Explanation>, chunks: seq<StreamChunk>, n: nat)
    requires 0 < n <= |chunks| && |before| == n - 1
    requires forall i :: 0 <= i < n - 1 ==> before[i] == Chunk(i, chunks[i].content)
    ensures var ex := before + [Chunk(n - 1, chunks[n - 1].content)];
      |ex| == n && forall i :: 0 <= i < n ==> ex[i] == Chunk(i, chunks[i].content)
  {
  }

  /** One more chunk adds exactly its own explanation. */
  lemma ChunkEventsStep(chunks: seq<StreamChunk>, n: nat)
    requires 0 < n <= |chunks|
    ensures Explanations(ChunkEvents(chunks, n))
      == Explanations(ChunkEvents(chunks, n - 1)) + [Chunk(n - 1, chunks[n - 1].content)]
  {
    ExplanationsAppend(ChunkEvents(chunks, n - 1), [Sent(ShowExplanation(Chunk(n - 1, chunks[n - 1].content)))]);
    ExplanationsOfOne(Sent(ShowExplanation(Chunk(n - 1, chunks[n - 1].content))));
  }

  lemma {:induction false} ChunkEventsHaveNoError(chunks: seq<StreamChunk>, n: nat)
    requires n <= |chunks|
    ensures ErrorCount(ChunkEvents(chunks, n)) == 0
  {
    if n > 0 {
      var last := Sent(ShowExplanation(Chunk(n - 1, chunks[n - 1].content)));
      ChunkEventsHaveNoError(chunks, n - 1);
      ErrorCountAppend(ChunkEvents(chunks, n - 1), [last]);
      ErrorCountOfOne(last);
    }
  }

  /** Neither the processing message nor the request is an explanation or an error. */
  lemma PreambleIsQuiet(s: Settings, selection: string, context: string)
    ensures Explanations(Preamble(s, selection, context)) == []
    ensures ErrorCount(Preamble(s, selection, context)) == 0
  {
    var pre := Preamble(s, selection, context);
    assert pre == [pre[0]] + [pre[1]];
    ExplanationsAppend([pre[0]], [pre[1]]);
    ExplanationsOfOne(pre[0]);
    ExplanationsOfOne(pre[1]);
    ErrorCountAppend([pre[0]], [pre[1]]);
    ErrorCountOfOne(pre[0]);
    ErrorCountOfOne(pre[1]);
  }

  /** The tail a streamed chat adds after the forwarded chunks: the error, if the stream failed first. */
  function StreamTail(chunks: seq<StreamChunk>, failure: Option<string>): seq<Event> {
    if FirstDone(chunks) == |chunks| && failure.Some? then [Sent(ShowError(ApiError(failure.value)))] else []
  }

  lemma StreamTailCounts(chunks: seq<StreamChunk>, failure: Option<string>)
    ensures Explanations(StreamTail(chunks, failure)) == []
    ensures ErrorCount(StreamTail(chunks, failure)) == if FirstDone(chunks) == |chunks| && failure.Some? then 1 else 0
  {
    var tail := StreamTail(chunks, failure);
    if tail != [] {
      ExplanationsOfOne(tail[0]);
      ErrorCountOfOne(tail[0]);
    }
  }

  /**
   * The forwarded `showExplanation` messages carry 0, 1, ..., n - 1 and the
   * contents of the chunks before the first `done` one, in stream order;
   * nothing is forwarded when the settings or the chat call fail.
   */
  lemma StreamIndicesAreConsecutive(selection: string, context: string, storage: Storage, chat: Chat)
    ensures var n := if storage.Stored? && chat.Streamed? then FirstDone(chat.chunks) else 0;
      var ex := Explanations(ExplainEvents(selection, context, storage, chat));
      |ex| == n && forall i :: 0 <= i < n ==> ex[i] == Chunk(i, chat.chunks[i].content)
  {
    match storage {
      case StorageFailed(m) =>
        ExplanationsOfOne(Sent(ShowError(m)));
      case Stored(_, _) =>
        var pre := Preamble(EffectiveSettings(storage), selection, context);
        PreambleIsQuiet(EffectiveSettings(storage), selection, context);
        ExplanationsAppend(pre, ChatEvents(chat));
        assert Explanations(ExplainEvents(selection, context, storage, chat)) == Explanations(ChatEvents(chat));
        match chat {
          case ChatRejected(m) =>
            ExplanationsOfOne(Sent(ShowError(ApiError(m))));
          case Streamed(chunks, failure) =>
            var n := FirstDone(chunks);
            ChunkEventsCarryIndices(chunks, n);
            StreamTailCounts(chunks, failure);
            assert ChatEvents(chat) == ChunkEvents(chunks, n) + StreamTail(chunks, failure);
            ExplanationsAppend(ChunkEvents(chunks, n), StreamTail(chunks, failure));
            assert Explanations(ChatEvents(chat)) == Explanations(ChunkEvents(chunks, n));
        }
    }
  }

  /** When the settings read, the chat call or the stream fails, before any `done` chunk. */
  predicate ExplainFails(storage: Storage, chat: Chat) {
    || storage.StorageFailed?
    || chat.ChatRejected?
    || (chat.failure.Some? && FirstDone(chat.chunks) == |chat.chunks|)
  }

  /** Every failure ends in exactly one `showError`, and success in none. */
  lemma OneErrorPerFailure(selection: string, context: string, storage: Storage, chat: Chat)
    ensures ErrorCount(ExplainEvents(selection, context, storage, chat)) == if ExplainFails(storage, chat) then 1 else 0
  {
    match storage {
      case StorageFailed(m) =>
        ErrorCountOfOne(Sent(ShowError(m)));
      case Stored(_, _) =>
        var pre := Preamble(EffectiveSettings(storage), selection, context);
        PreambleIsQuiet(EffectiveSettings(storage), selection, context);
        ErrorCountAppend(pre, ChatEvents(chat));
        match chat {
          case ChatRejected(m) =>
            ErrorCountOfOne(Sent(ShowError(ApiError(m))));
          case Streamed(chunks, failure) =>
            var n := FirstDone(chunks);
            ChunkEventsHaveNoError(chunks, n);
            StreamTailCounts(chunks, failure);
            assert ChatEvents(chat) == ChunkEvents(chunks, n) + StreamTail(chunks, failure);
            ErrorCountAppend(ChunkEvents(chunks, n), StreamTail(chunks, failure));
        }
    }
  }

  /** A failed API call is reported with the fixed wrapper around its message. */
  lemma ApiFailureText(selection: string, context: string, storage: Storage, m: string)
    requires storage.Stored?
    ensures ExplainEvents(selection, context, storage, ChatRejected(m))[2]
      == Sent(ShowError("Ollama API error: " + m + ". Please ensure Ollama is running and accessible."))
  {
  }

  /**
   * `showProcessing` is sent before anything else once the settings are read,
   * and the request goes to the stored server and model or the defaults.
   */
  lemma ProcessingComesFirst(selection: string, context: string, storage: Storage, chat: Chat)
    requires storage.Stored?
    ensures var events := ExplainEvents(selection, context, storage, chat);
      && events[0] == Sent(ShowProcessing("Generating explanation..."))
      && events[1].Request?
      && events[1].url == storage.ollamaUrl.GetOr("http://localhost:11434")
      && events[1].model == storage.model.GetOr("llama3")
      && events[1].context == context
  {
  }

  /** The position of the last menu update of a log, if any. */
  function LastMenuUpdate(log: seq<Event>): (r: Option<bool>)
    ensures r.None? <==> forall i :: 0 <= i < |log| ==> !log[i].MenuUpdate?
  {
    if log == [] then None
    else if log[|log| - 1].MenuUpdate? then Some(log[|log| - 1].enabled)
    else LastMenuUpdate(log[..|log| - 1])
  }

  lemma LastMenuUpdateAppend(a: seq<Event>, b: seq<Event>)
    requires b != [] && b[|b| - 1].MenuUpdate?
    ensures LastMenuUpdate(a + b) == Some(b[|b| - 1].enabled)
  {
  }

  /**
   * A click on the item disables it first; for a valid tab it is enabled
   * again at the end whatever happens, for an invalid tab it stays disabled.
   */
  lemma MenuReenabledIffTabValid(selection: string, tabValid: bool, w: World)
    ensures var events := ClickEvents(MenuItemId, selection, tabValid, w);
      && events[0] == MenuUpdate(false)
      && LastMenuUpdate(events) == Some(tabValid)
  {
    var events := ClickEvents(MenuItemId, selection, tabValid, w);
    if tabValid {
      var rest := Handshake(w.ping) + (if HandshakeOk(w) then AfterHandshake(selection, w) else [MenuUpdate(true)]);
      assert events == [MenuUpdate(false)] + rest;
      assert rest[|rest| - 1] == MenuUpdate(true) by {
        if HandshakeOk(w) {
          var after := AfterHandshake(selection, w);
          assert after[|after| - 1] == MenuUpdate(true);
        }
      }
      LastMenuUpdateAppend([MenuUpdate(false)], rest);
    }
  }

  /** Other menu items are ignored altogether. */
  lemma OtherItemsIgnored(menuItemId: string, selection: string, tabValid: bool, w: World)
    requires menuItemId != "lookup-selection"
    ensures ClickEvents(menuItemId, selection, tabValid, w) == []
  {
  }

  /** Empty page-script results produce no request and no explanation. */
  lemma EmptyResultsExplainNothing(selection: string, w: World)
    requires HandshakeOk(w) && w.page == Results([])
    ensures ClickEvents(MenuItemId, selection, true, w)
      == [MenuUpdate(false)] + Handshake(w.ping) + [ExtractPage, MenuUpdate(true)]
  {
  }

  /** A rejected page script falls back to the context "Context unavailable". */
  lemma RejectedScriptFallsBack(selection: string, w: World)
    requires HandshakeOk(w) && w.page == ScriptRejected
    ensures ClickEvents(MenuItemId, selection, true, w)
      == [MenuUpdate(false)] + Handshake(w.ping) + [ExtractPage]
         + ExplainEvents(selection, "Context unavailable", w.storage, w.chat) + [MenuUpdate(true)]
  {
    var after := ExplainEvents(selection, ContextUnavailable, w.storage, w.chat) + [MenuUpdate(true)];
    assert AfterHandshake(selection, w) == [ExtractPage] + after;
  }

  /** When injection fails the page is never read and nothing is explained. */
  lemma FailedInjectionOnlyReenables(selection: string, w: World)
    requires w.ping != Some(Pong) && !w.injectOk
    ensures ClickEvents(MenuItemId, selection, true, w)
      == [MenuUpdate(false), Sent(Ping), Inject("content.js"), MenuUpdate(true)]
  {
  }
}

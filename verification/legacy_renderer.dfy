/**
 * The message handlers of the older content.js: every display handler
 * replaces the popup, the explanation is the whole response formatted at
 * once, and `ping` is not answered.
 */
module LegacyRenderer {
  import opened JsString
  import opened Messages
  import opened Formatter
  import opened Dom
  import opened Renderer

  const ExplanationTimeout: nat := 120000

  /**
   * `showExplanationPopup(explanation)`: replace the popup with one showing
   * the formatted text and schedule its removal after two minutes. A chunk
   * object has no `.replace`, so after the old popup is removed it throws.
   */
  function LegacyExplanationStep(p: Page, e: Explanation): (Page, bool) {
    match e
    case Whole(text) =>
      (Page(RemovePopup(p.popups) + [Popup(Explanation, Some(FormatWhole(text)))], p.timers + [ExplanationTimeout]), true)
    case Chunk(_, _) => (Page(RemovePopup(p.popups), p.timers), false)
  }

  /** The `chrome.runtime.onMessage` listener of content.js. */
  function LegacyHandle(p: Page, m: Message): (Page, Reply) {
    match m
    case ShowExplanation(e) =>
      var (q, returned) := LegacyExplanationStep(p, e);
      (q, if returned then Status("success") else Threw)
    case ShowError(message) => (ErrorStep(p, message), Status("error"))
    case ShowProcessing(message) => (ProcessingStep(p, message), Status("processing"))
    case Ping => (p, NoReply)
    case Other(_) => (p, NoReply)
  }

  /**
   * Each injection of content.js runs the whole file again and adds one more
   * listener, so with `listeners` injections every message is handled that
   * many times, each listener in turn acting on the shared page.
   */
  function LegacyDispatch(p: Page, m: Message, listeners: nat): Page
    decreases listeners
  {
    if listeners == 0 then p else LegacyDispatch(LegacyHandle(p, m).0, m, listeners - 1)
  }

  /** `k` copies of the same timer delay. */
  function Delays(delay: nat, k: nat): (r: seq<nat>)
    ensures |r| == k && forall i :: 0 <= i < k ==> r[i] == delay
  {
    if k == 0 then [] else [delay] + Delays(delay, k - 1)
  }

  method ShowExplanationPopup(doc: Document, e: Explanation) returns (returned: bool)
    modifies doc
    ensures (doc.State(), returned) == LegacyExplanationStep(old(doc.State()), e)
  {
    doc.RemoveExistingPopup();
    match e {
      case Whole(text) =>
        doc.AppendPopup(Popup(Explanation, Some(FormatWhole(text))));
        doc.Schedule(ExplanationTimeout);
        returned := true;
      case Chunk(_, _) =>
        returned := false;
    }
  }

  method OnMessage(doc: Document, m: Message) returns (reply: Reply)
    modifies doc
    ensures (doc.State(), reply) == LegacyHandle(old(doc.State()), m)
  {
    match m {
      case ShowExplanation(e) =>
        var returned := ShowExplanationPopup(doc, e);
        reply := if returned then Status("success") else Threw;
      case ShowError(message) =>
        ShowErrorPopup(doc, message);
        reply := Status("error");
      case ShowProcessing(message) =>
        ShowProcessingPopup(doc, message);
        reply := Status("processing");
      case Ping =>
        reply := NoReply;
      case Other(_) =>
        reply := NoReply;
    }
  }
}

/** What the content.js transitions promise, and how they meet the src/background.js handshake. */
module LegacyRendererFacts {
  import opened JsString
  import opened Messages
  import opened Formatter
  import opened Dom
  import opened Renderer
  import opened LegacyRenderer
  import Orchestrator
  import OrchestratorFacts

  /** Every display handler removes the old popup and creates exactly one, so at most one exists. */
  lemma LegacyHandlersKeepOnePopup(p: Page, m: Message)
    requires Singleton(p)
    ensures Singleton(LegacyHandle(p, m).0)
    ensures m.ShowError? || m.ShowProcessing? || (m.ShowExplanation? && m.explanation.Whole?) ==>
      |LegacyHandle(p, m).0.popups| == 1
  {
  }

  /**
   * The explanation popup shows the whole text formatted at once (set, not
   * appended) and is removed after two minutes.
   */
  lemma WholeExplanationReplaces(p: Page, text: string)
    requires Singleton(p)
    ensures LegacyHandle(p, ShowExplanation(Whole(text)))
      == (Page([Popup(Explanation, Some(FormatWhole(text)))], p.timers + [120000]), Status("success"))
  {
    assert RemovePopup(p.popups) == [];
    var (q, returned) := LegacyExplanationStep(p, Whole(text));
    assert returned;
    assert q.timers == p.timers + [120000];
    assert q.popups == [Popup(Explanation, Some(FormatWhole(text)))];
  }

  /** Explanations are removed after 120 s, errors after 30 s, processing popups never. */
  lemma LegacyTimers(p: Page, m: Message)
    ensures LegacyHandle(p, m).0.timers == p.timers + (
      if m.ShowExplanation? && m.explanation.Whole? then [120000]
      else if m.ShowError? then [30000]
      else [])
  {
  }

  /**
   * After `k` injections a whole explanation still leaves one popup, showing
   * the formatted text, but schedules `k` removals of two minutes each.
   */
  lemma {:induction false} RepeatedListenersMultiplyTimers(p: Page, text: string, k: nat)
    requires Singleton(p)
    decreases k
    ensures var q := LegacyDispatch(p, ShowExplanation(Whole(text)), k);
      && q.timers == p.timers + Delays(120000, k)
      && (k >= 1 ==> q.popups == [Popup(Explanation, Some(FormatWhole(text)))])
  {
    if k == 0 {
      assert p.timers + [] == p.timers;
    } else {
      var first := LegacyHandle(p, ShowExplanation(Whole(text))).0;
      WholeExplanationReplaces(p, text);
      RepeatedListenersMultiplyTimers(first, text, k - 1);
      assert first.timers + Delays(120000, k - 1) == p.timers + Delays(120000, k);
    }
  }

  /** A streamed chunk only removes the popup, and the handler throws. */
  lemma ChunkIsNotUnderstood(p: Page, i: nat, c: string)
    ensures LegacyHandle(p, ShowExplanation(Chunk(i, c))) == (Page(RemovePopup(p.popups), p.timers), Threw)
  {
  }

  /**
   * content.js never answers `ping`: its listener keeps the channel open
   * without replying. Taking that unanswered ping as a rejection, the
   * handshake of src/background.js always injects content.js again against
   * it; src/content.js answers pong, and nothing is injected.
   */
  lemma HandshakeAgainstEachScript(p: Page)
    ensures ReplyStatus(LegacyHandle(p, Ping).1) == None
    ensures InjectCount(Orchestrator.Handshake(ReplyStatus(LegacyHandle(p, Ping).1)), "content.js") == 1
    ensures InjectCount(Orchestrator.Handshake(ReplyStatus(Handle(p, Ping).1)), "content.js") == 0
  {
    OrchestratorFacts.HandshakeInjectsUnlessPong(None);
    OrchestratorFacts.HandshakeInjectsUnlessPong(Some("pong"));
  }
}

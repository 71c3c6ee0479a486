/**
 * The message handlers of src/content.js as transitions on the page state:
 * the streaming explanation popup (reset on chunk 0, append afterwards,
 * recreate when missing), the processing and error popups, and the `ping`
 * reply the background uses to decide whether to inject the script.
 */
module Renderer {
  import opened JsString
  import opened Messages
  import opened Formatter
  import opened Dom

  const ErrorPrefix: string := "Failed to get explanation: "
  const ErrorTimeout: nat := 30000

  /** What the listener does with `sendResponse`: reply with a status, not reply, or throw first. */
  datatype Reply = Status(status: string) | NoReply | Threw

  /** The `status` the sender of a message sees, if any. */
  function ReplyStatus(r: Reply): Option<string> {
    if r.Status? then Some(r.status) else None
  }

  /** The popup `getElementById` finds, or a fresh explanation popup appended when there is none. */
  function EnsurePopup(popups: seq<Popup>): (r: seq<Popup>)
    ensures r != [] && |r| == if popups == [] then 1 else |popups|
    ensures popups != [] ==> r == popups
    ensures popups == [] ==> r[0] == Popup(Explanation, None)
  {
    if popups == [] then [Popup(Explanation, None)] else popups
  }

  /** The first popup holding a content region, which is where `getElementById` finds it. */
  function FirstRegion(popups: seq<Popup>): (r: Option<nat>)
    ensures r.Some? ==> r.value < |popups| && popups[r.value].region.Some?
    ensures r.Some? ==> forall k :: 0 <= k < r.value ==> popups[k].region.None?
    ensures r.None? ==> forall k :: 0 <= k < |popups| ==> popups[k].region.None?
  {
    if popups == [] then None
    else if popups[0].region.Some? then Some(0)
    else match FirstRegion(popups[1..])
      case None => None
      case Some(k) => Some(k + 1)
  }

  /**
   * The content region found, or an empty one appended to the first popup,
   * with the index of the popup that holds it.
   */
  function EnsureRegion(popups: seq<Popup>): (r: (seq<Popup>, nat))
    requires popups != []
    ensures |r.0| == |popups| && r.1 < |popups| && r.0[r.1].region.Some?
    ensures FirstRegion(r.0) == Some(r.1)
    ensures FirstRegion(popups).Some? ==> r == (popups, FirstRegion(popups).value)
    ensures FirstRegion(popups).None? ==>
      r.1 == 0 && r.0[0] == popups[0].(region := Some("")) && r.0[1..] == popups[1..]
  {
    match FirstRegion(popups)
    case Some(k) => (popups, k)
    case None => (popups[0 := popups[0].(region := Some(""))], 0)
  }

  /** `content.innerHTML += html`. */
  function AppendToRegion(popups: seq<Popup>, k: nat, html: string): (r: seq<Popup>)
    requires k < |popups| && popups[k].region.Some?
    ensures |r| == |popups|
    ensures r[k] == popups[k].(region := Some(popups[k].region.value + html))
    ensures forall j :: 0 <= j < |r| && j != k ==> r[j] == popups[j]
  {
    popups[k := popups[k].(region := Some(popups[k].region.value + html))]
  }

  /**
   * `showExplanationPopup(explanation)`: the new page, and whether it
   * returned. A whole-string explanation has no `index` and no `content`,
   * so the popup and region are prepared and then `.replace` throws.
   */
  function ExplanationStep(p: Page, e: Explanation): (Page, bool) {
    var start := if e.Chunk? && e.index == 0 then RemovePopup(p.popups) else p.popups;
    var (popups, k) := EnsureRegion(EnsurePopup(start));
    match e
    case Chunk(_, c) => (Page(AppendToRegion(popups, k, FormatChunk(c)), p.timers), true)
    case Whole(_) => (Page(popups, p.timers), false)
  }

  /** `showErrorPopup(message)`: replace the popup and schedule its removal. */
  function ErrorStep(p: Page, message: string): Page {
    Page(RemovePopup(p.popups) + [Popup(Error(ErrorPrefix + message), None)], p.timers + [ErrorTimeout])
  }

  /** `showProcessingPopup(message)`: replace the popup; no removal is scheduled. */
  function ProcessingStep(p: Page, message: string): Page {
    Page(RemovePopup(p.popups) + [Popup(Processing(message), None)], p.timers)
  }

  /** The `chrome.runtime.onMessage` listener. */
  function Handle(p: Page, m: Message): (Page, Reply) {
    match m
    case ShowExplanation(e) =>
      var (q, returned) := ExplanationStep(p, e);
      (q, if returned then Status("success") else Threw)
    case ShowError(message) => (ErrorStep(p, message), Status("error"))
    case ShowProcessing(message) => (ProcessingStep(p, message), Status("processing"))
    case Ping => (p, Status("pong"))
    case Other(_) => (p, NoReply)
  }

  /** The `i`-th pending timer fires. */
  function Fire(p: Page, i: nat): Page
    requires i < |p.timers|
  {
    Page(RemovePopup(p.popups), p.timers[..i] + p.timers[i + 1..])
  }

  method ShowExplanationPopup(doc: Document, e: Explanation) returns (returned: bool)
    modifies doc
    ensures (doc.State(), returned) == ExplanationStep(old(doc.State()), e)
  {
    ghost var p := doc.State();
    ghost var start := if e.Chunk? && e.index == 0 then RemovePopup(p.popups) else p.popups;
    if e.Chunk? && e.index == 0 {
      doc.RemoveExistingPopup();
    }
    if doc.popups == [] {
      doc.AppendPopup(Popup(Explanation, None));
    }
    assert doc.popups == EnsurePopup(start) && doc.timers == p.timers;
    var k: nat;
    match FirstRegion(doc.popups) {
      case Some(found) =>
        k := found;
      case None =>
        k := 0;
        doc.popups := doc.popups[0 := doc.popups[0].(region := Some(""))];
    }
    assert (doc.popups, k) == EnsureRegion(EnsurePopup(start));
    match e {
      case Chunk(_, c) =>
        var html := FormatChunk(c);
        doc.popups := doc.popups[k := doc.popups[k].(region := Some(doc.popups[k].region.value + html))];
        returned := true;
      case Whole(_) =>
        returned := false;
    }
  }

  method ShowErrorPopup(doc: Document, message: string)
    modifies doc
    ensures doc.State() == ErrorStep(old(doc.State()), message)
  {
    doc.RemoveExistingPopup();
    doc.AppendPopup(Popup(Error(ErrorPrefix + message), None));
    doc.Schedule(ErrorTimeout);
  }

  method ShowProcessingPopup(doc: Document, message: string)
    modifies doc
    ensures doc.State() == ProcessingStep(old(doc.State()), message)
  {
    doc.RemoveExistingPopup();
    doc.AppendPopup(Popup(Processing(message), None));
  }

  method OnMessage(doc: Document, m: Message) returns (reply: Reply)
    modifies doc
    ensures (doc.State(), reply) == Handle(old(doc.State()), m)
  {
    match m {
      case ShowExplanation(e) =>
        var returned := ShowExplanationPopup(doc, e);
        reply := if returned then Status("success") else Threw;
      case ShowError(message) =>
        ShowErrorPopup(doc, message);
        reply := Status("error");
      case ShowProcessing(message) =>
        ShowProcessingPopup(doc, message);
        reply := Status("processing");
      case Ping =>
        reply := Status("pong");
      case Other(_) =>
        reply := NoReply;
    }
  }
}

/** What the src/content.js transitions promise. */
module RendererFacts {
  import opened JsString
  import opened Messages
  import opened Formatter
  import opened Dom
  import opened Renderer

  /** Every handler and every timer keeps at most one popup on the page. */
  lemma HandlersKeepOnePopup(p: Page, m: Message)
    requires Singleton(p)
    ensures Singleton(Handle(p, m).0)
    ensures forall i :: 0 <= i < |p.timers| ==> Singleton(Fire(p, i))
  {
  }

  /** A popup created for a chunk holds exactly that chunk, formatted. */
  lemma FreshPopupTakesChunk(c: string)
    ensures var (popups, k) := EnsureRegion(EnsurePopup([]));
      AppendToRegion(popups, k, FormatChunk(c)) == [Popup(Explanation, Some(FormatChunk(c)))]
  {
    assert FirstRegion([Popup(Explanation, None)]) == None;
    assert "" + FormatChunk(c) == FormatChunk(c);
  }

  /** Chunk 0 discards whatever popup there is and starts a fresh region with the chunk. */
  lemma FirstChunkStartsFresh(p: Page, c: string)
    requires Singleton(p)
    ensures Handle(p, ShowExplanation(Chunk(0, c)))
      == (Page([Popup(Explanation, Some(FormatChunk(c)))], p.timers), Status("success"))
  {
    FreshPopupTakesChunk(c);
  }

  /**
   * A later chunk is appended to the popup there is, whatever its kind (a
   * processing popup gains a region), and a closed popup is recreated with
   * only this chunk.
   */
  lemma LaterChunkAppends(p: Page, i: nat, c: string)
    requires Singleton(p) && i > 0
    ensures p.popups == [] ==>
      Handle(p, ShowExplanation(Chunk(i, c))).0 == Page([Popup(Explanation, Some(FormatChunk(c)))], p.timers)
    ensures p.popups != [] ==>
      Handle(p, ShowExplanation(Chunk(i, c))).0
        == Page([Popup(p.popups[0].kind, Some(p.popups[0].region.GetOr("") + FormatChunk(c)))], p.timers)
  {
    if p.popups == [] {
      FreshPopupTakesChunk(c);
    } else {
      var q := p.popups[0];
      assert p.popups == [q];
      if q.region.None? {
        assert FirstRegion(p.popups) == None;
      } else {
        assert FirstRegion(p.popups) == Some(0);
      }
    }
  }

  /** Chunks `0 .. |cs| - 1` delivered in order. */
  function Stream(p: Page, cs: seq<string>): Page {
    if cs == [] then p
    else Handle(Stream(p, cs[..|cs| - 1]), ShowExplanation(Chunk(|cs| - 1, cs[|cs| - 1]))).0
  }

  /** The chunks formatted one by one and concatenated. */
  function FormattedChunks(cs: seq<string>): string {
    if cs == [] then "" else FormattedChunks(cs[..|cs| - 1]) + FormatChunk(cs[|cs| - 1])
  }

  /**
   * After chunks 0 .. n - 1 arrive in order, the page holds one explanation
   * popup whose region is the concatenation of the formatted chunks.
   */
  lemma {:induction false} StreamAccumulates(p: Page, cs: seq<string>)
    requires Singleton(p) && cs != []
    ensures Stream(p, cs) == Page([Popup(Explanation, Some(FormattedChunks(cs)))], p.timers)
  {
    if |cs| == 1 {
      FirstChunkStartsFresh(p, cs[0]);
      assert cs[..0] == [];
    } else {
      StreamAccumulates(p, cs[..|cs| - 1]);
      LaterChunkAppends(Stream(p, cs[..|cs| - 1]), |cs| - 1, cs[|cs| - 1]);
    }
  }

  /** The error popup's text and its 30-second removal timer. */
  lemma ErrorPopupShowsMessage(p: Page, message: string)
    requires Singleton(p)
    ensures Handle(p, ShowError(message)) == (
      Page([Popup(Error("Failed to get explanation: " + message), None)], p.timers + [30000]),
      Status("error"))
  {
    assert RemovePopup(p.popups) + [Popup(Error(ErrorPrefix + message), None)]
      == [Popup(Error("Failed to get explanation: " + message), None)];
  }

  /** Only the error handler schedules a removal; processing and streaming popups persist. */
  lemma OnlyErrorsSchedule(p: Page, m: Message)
    ensures Handle(p, m).0.timers == p.timers + (if m.ShowError? then [30000] else [])
  {
  }

  /** `ping` is answered with pong and changes nothing; unknown actions are ignored. */
  lemma PingAndUnknownActions(p: Page, action: string)
    ensures Handle(p, Ping) == (p, Status("pong"))
    ensures Handle(p, Other(action)) == (p, NoReply)
    ensures ReplyStatus(Handle(p, Ping).1) == Some("pong")
  {
  }

  /** The three display actions reply with their fixed statuses. */
  lemma DisplayReplies(p: Page, i: nat, c: string, message: string)
    ensures Handle(p, ShowExplanation(Chunk(i, c))).1 == Status("success")
    ensures Handle(p, ShowError(message)).1 == Status("error")
    ensures Handle(p, ShowProcessing(message)).1 == Status("processing")
  {
  }

  /**
   * The error popup's timer removes whatever popup holds the id when it
   * fires: here the processing popup of the next request.
   */
  lemma StaleTimerRemovesNewerPopup(p: Page, error: string, message: string)
    requires Singleton(p)
    ensures var q := ProcessingStep(ErrorStep(p, error), message);
      && q.popups == [Popup(Processing(message), None)]
      && Fire(q, |p.timers|).popups == []
  {
  }
}

# GenLookup core, modelled in Dafny

A Chrome extension explains text the user selects on a web page, using a
local Ollama server. This project models the extension's core and proves
properties of that model. The core has four parts.

- **Page extractor.** `getPageContent` of `src/background.js` and its
  nested `htmlToMarkdown` turn the page's main content into Markdown. They prepend a title/URL
  header, collapse runs of newlines and spaces, and cap the text at 10,000
  characters (`serializer.dfy`, `extractor.dfy`).
- **Background orchestration.** The current service worker is
  `src/background.js`. It disables the context-menu item, pings the tab and
  injects `content.js` unless the reply is `pong`, then reads the page. It
  streams the chat response, forwarding numbered chunks, reports every
  failure with one `showError`, and finally re-enables the item
  (`orchestrator.dfy`). The older `background.js` re-injects the content
  script before each `sendMessageToTab`, and makes one non-streaming
  `/api/generate` request (`legacy_background.dfy`). Both share the
  message vocabulary in `messages.dfy`.
- **Popup renderers.** `src/content.js` handles the streaming explanation:
  chunk 0 starts a fresh popup, later chunks are appended to its content
  region, and the popup is recreated when it is missing. It also shows the
  processing and error popups and answers `ping`. The older `content.js`
  replaces the popup with the whole formatted answer. Both use the
  Markdown-to-HTML regular-expression chains (`formatter.dfy`) and the
  popup DOM (`dom.dfy`). Each handler is a pure transition on the page
  state (`renderer.dfy`, `legacy_renderer.dfy`). A `Document` class and
  methods that update it in place are proved equal to those transitions.
- **Manifest preparation.** `scripts/prepare-manifest.js` removes the first
  `"dist/"` from the service-worker, popup and icon paths. Any failure
  exits with code 1, including the TypeError a single-path `default_icon`
  raises (`manifest.dfy`).

How the world outside the scripts is modelled:

- Chrome and the Ollama server are inputs. Each is a `World` value: the
  ping reply, whether injection succeeds, what the page script returns,
  what storage holds, and the chat or fetch outcome.
- Everything a background script does is appended to an event `log`. For
  every input, a specification function gives that log outright.
- JavaScript's regular expressions are modelled by left-to-right scanning
  functions:
  - a lazy `(.*?)` stops at the first closing delimiter that comes before
    any line terminator (`\n`, `\r`, U+2028, U+2029);
  - a `.replace` with a string pattern removes only the first occurrence.
- Absent or falsy DOM properties (`href`, `alt`, `src`) are the empty
  string. An absent manifest field is `None` and an empty one is
  `Some("")`; both fail the truthiness guard of the rewrite.

The code behaves as follows, and the model follows it:

- The handshake has no timeout. It waits for the ping to settle; content.js
  never answers it, and the model takes that ping as rejected (see "## Left out").
- When injection fails, the click ends there. The menu item is re-enabled,
  and no request is made. There is no "degraded" continuation.
- For a tab that is not valid, the item is disabled and never re-enabled.
- Hidden elements are detected from the inline style, not the computed
  style. The skip list compares the raw `tagName` with upper-case names, so
  an element reporting `svg` in lower case is serialized like any other tag.
- Streaming and processing popups in `src/content.js` are never removed by
  a timer. Only error popups are removed, after 30 s. In `content.js` the
  explanation popup is removed after 120 s.
- A chunk after chunk 0 whose region is missing recreates a popup, or adds
  a region to whatever popup holds the id. It is not dropped.

## Model

| member | source | states |
|---|---|---|
| JsString.Trim | src/background.js:96 | `String.prototype.trim`: the piece between the leading and the trailing JavaScript whitespace. It has no whitespace at either end, everything before and after it is whitespace, and it is empty exactly when the text is all whitespace. |
| JsString.LowerAscii | src/background.js:110 | `toLowerCase` on tag names: the same length, each ASCII capital replaced by its lower-case letter, every other character kept. |
| JsString.IndexOf | scripts/prepare-manifest.js:17 | `indexOf`: the first index at or after `from` where the pattern occurs, with no occurrence before it; `None` exactly when it occurs nowhere from there on. |
| Serializer.ChildNodes | src/background.js:93 | `childNodes`: an element's children in order; a text or other node has none. |
| Serializer.IsSkipped | src/background.js:102-106 | An element is skipped when its raw `tagName` is SCRIPT, STYLE, SVG or NOSCRIPT, or its inline style has `display: none` or `visibility: hidden`. |
| Serializer.IsImageLeaf | src/background.js:184-185 | An element is printed as an image when its lower-cased tag is `img` and both `alt` and `src` are non-empty, the truthiness test of the source. |
| Serializer.NodeMarkdown | src/background.js:94-219 | What one child adds, in the order of the loop body: a text node its trimmed text and a space unless that is empty; a node that is neither text nor element nothing; a skipped element nothing; an image leaf `![alt](src)` without its children; any other element its prefix, its children's Markdown and its suffix. |
| Serializer.HtmlToMarkdown | src/background.js:89-223 | The accumulator loop over `childNodes`, with its recursion, produces exactly `ChildrenMarkdown` of the element's children. |
| Serializer.SwitchAffixes | src/background.js:110-211 | The `switch` on the lower-cased tag yields the prefix and suffix that `Affixes` assigns to the element. |
| SerializerFacts.TextNodeContribution | src/background.js:94-99 | A text node adds its trimmed text and one space. A blank text node adds nothing. |
| SerializerFacts.SkippedElementContributesNothing | src/background.js:100-108 | A SCRIPT, STYLE, SVG or NOSCRIPT element, or one hidden by its inline style, adds nothing, whatever its children. |
| SerializerFacts.LowerCaseSvgIsNotSkipped | src/background.js:100-108 | The skip list is compared case-sensitively with the raw `tagName`. A visible element reporting `svg` is therefore not skipped, and it contributes its children's Markdown. |
| SerializerFacts.ChildrenMarkdownAppend | src/background.js:93-220 | Siblings serialize independently: the Markdown of two concatenated child lists is the concatenation of their Markdown. |
| SerializerFacts.UnlistedTagIsTransparent | src/background.js:110-211 | An element whose lower-cased tag has no `switch` case adds exactly its children's Markdown. |
| SerializerFacts.AnchorWrapsOnlyWithHref | src/background.js:156-161 | An `a` element becomes `[text](href)` exactly when `href` is set, and is transparent otherwise. |
| SerializerFacts.ImageIsLeaf | src/background.js:184-191 | An `img` with both `alt` and `src` prints exactly `![alt](src)`, whatever its children. Without both, it is transparent. |
| SerializerFacts.DivWrapsOnlyWhenBlock | src/background.js:204-210 | A `div` is wrapped in newlines exactly when its computed display is `block`. |
| Extractor.RunLength | src/background.js:247-248 | The length of the leading run of a character: that prefix is all the character, and the next character differs. |
| Extractor.CollapseRuns | src/background.js:247-248 | Collapsing runs never lengthens the text, keeps it empty exactly when it was empty, and keeps its first character. |
| Extractor.Collapse | src/background.js:247-248 | The two clean-up passes in source order, newlines (runs of three or more) first, then spaces (runs of two or more). It never lengthens the text. |
| Extractor.Truncate | src/background.js:251-253 | A text over 10,000 characters becomes its first 10,000 followed by the truncation marker; a shorter one is kept. |
| Extractor.Header | src/background.js:241 | The metadata header: `# ` and the title, a blank line, `URL: ` and the address, a blank line, `---` and a blank line. |
| Extractor.ContentRoot | src/background.js:226-234 | The element serialized: the first match of the content selector when there is one, else the body. |
| Extractor.GetPageContent | src/background.js:225-256 | The statement-by-statement body yields exactly `Truncate(Collapse(Header(title, url) + ChildrenMarkdown(ChildNodes(ContentRoot(p)))))`: the header and the serialized content root, through both clean-up passes and the cap. The result is never longer than 10,027 characters. |
| ExtractorFacts.CollapseRunsLeavesNoRun | src/background.js:247-248 | After `/c{m,}/g` is replaced by `m - 1` copies, no run of `m` copies of `c` remains. |
| ExtractorFacts.CollapseRunsFixesNoRun | src/background.js:247-248 | Text with no run of `m` copies is left unchanged by the pass. |
| ExtractorFacts.CollapseRunsKeepsOtherNoRun | src/background.js:247-248 | The space pass does not create a run of newlines. |
| ExtractorFacts.CollapseRunsKeepsOtherRunLength | src/background.js:247-248 | Collapsing runs of one character leaves how many copies of another character the text starts with unchanged. |
| ExtractorFacts.CollapseIsNormalAndIdempotent | src/background.js:247-248 | After both passes there is no `\n\n\n` and no double space. Running both passes again changes nothing, and the text never grows. |
| ExtractorFacts.TruncateBound | src/background.js:251-253 | Text of at most 10,000 characters is kept as is. Longer text becomes its first 10,000 characters plus the marker, exactly 10,027 characters. |
| Messages.EffectiveSettings | src/background.js:262-265 | A missing server URL defaults to `http://localhost:11434`, and a missing model to `llama3`. Stored values are kept. |
| Messages.ApiError | src/background.js:321-325 | The text both background scripts put around a failed API call: `Ollama API error: `, the error's message, and the advice to check that Ollama is running. |
| Orchestrator.FirstDone | src/background.js:306-310 | The index of the first `done` chunk, or the stream length when there is none. Every chunk before it is not done. |
| Orchestrator.ChunkEvents | src/background.js:306-320 | The `showExplanation` messages for the first `n` chunks, in order, chunk `i` sent with index `i`; there are exactly `n` of them. |
| Orchestrator.Preamble | src/background.js:289-304 | Once the settings are read: the processing message, then the chat request to the configured server with the configured model. |
| Orchestrator.Handshake | src/background.js:336-356 | `ensureContentScriptLoaded`: a ping, then an injection of content.js unless the reply is `{status: "pong"}`. |
| Orchestrator.HandshakeOk | src/background.js:336-356 | The handshake resolves when the reply is pong or the injection succeeds; otherwise it rejects. |
| Orchestrator.AfterHandshake | src/background.js:34-74 | After the handshake: the page read, then the explanation of the first result, of "Context unavailable" when the script is rejected, or none for no results, and finally the item re-enabled on every branch. |
| Orchestrator.Background.EnsureContentScriptLoaded | src/background.js:336-356 | It pings, then injects `content.js` unless the reply is `pong`. It succeeds exactly when the reply is pong or the injection succeeds. |
| Orchestrator.Background.StreamChat | src/background.js:294-332 | The log grows by exactly `ChatEvents`. A rejected call sends one "Ollama API error" message. A stream forwards its chunks up to the first `done`, and sends one error when it throws before any `done`. The menu flag is untouched. |
| Orchestrator.Background.ExplainWithOllama | src/background.js:259-333 | The log grows by exactly `ExplainEvents`. A storage failure sends the error alone. Otherwise it sends processing, makes the request, forwards the stream, and sends one error for a rejected call or a stream that fails before `done`. The menu flag is untouched. |
| Orchestrator.Background.ReadPageAndExplain | src/background.js:34-74 | After a successful handshake the page is read. The call explains with the first result, with "Context unavailable" when the script is rejected, or with nothing when there are no results. The item always ends enabled. |
| Orchestrator.Background.OnClicked | src/background.js:21-83 | Other menu items change nothing. Otherwise the item ends enabled exactly when the tab is valid, and the log is `ClickEvents`. |
| OrchestratorFacts.HandshakeInjectsUnlessPong | src/background.js:336-356 | The handshake starts with a ping. It injects `content.js` once, unless the reply is `pong`, in which case it injects nothing. |
| Orchestrator.Background.ForwardChunks | src/background.js:306-320 | The `for await` loop stops at the first `done` chunk and returns its index, or the stream length when there is none. The log grows by exactly one `showExplanation` per chunk before it, numbered from 0. Its invariant: no chunk read so far is done. |
| OrchestratorFacts.ChunkEventsCarryIndices | src/background.js:306-320 | The first `n` forwarded chunks carry indices 0..n-1 and their contents, in order. |
| OrchestratorFacts.ChunkEventsHaveNoError | src/background.js:306-320 | Forwarding chunks never sends an error. |
| OrchestratorFacts.StreamIndicesAreConsecutive | src/background.js:259-333 | The explanations sent are exactly chunks 0..n-1 before the first `done` chunk, numbered consecutively from 0. None are sent when storage or the chat call fails. |
| OrchestratorFacts.OneErrorPerFailure | src/background.js:259-333 | Exactly one `showError` is sent when storage, the chat call or the stream fails before `done`. None is sent otherwise. |
| OrchestratorFacts.ApiFailureText | src/background.js:321-332 | A rejected chat call is reported as "Ollama API error: m. Please ensure Ollama is running and accessible.". |
| OrchestratorFacts.ProcessingComesFirst | src/background.js:259-303 | Once settings are read, `showProcessing("Generating explanation...")` is sent first. The request then goes to the stored URL and model, or the defaults, with the given context. |
| OrchestratorFacts.MenuReenabledIffTabValid | src/background.js:21-83 | A click first disables the item. The last menu update re-enables it exactly when the tab is valid. |
| OrchestratorFacts.OtherItemsIgnored | src/background.js:21-22 | A click on any other menu item does nothing. |
| OrchestratorFacts.EmptyResultsExplainNothing | src/background.js:40-59 | Empty page-script results make no request and only re-enable the item. |
| OrchestratorFacts.RejectedScriptFallsBack | src/background.js:61-74 | A rejected page script falls back to explaining with "Context unavailable", then re-enables the item. |
| OrchestratorFacts.FailedInjectionOnlyReenables | src/background.js:76-80 | When no pong comes back and injection fails, the page is never read and nothing is requested. |
| LegacyBackground.SendToTab | background.js:2-28 | `sendMessageToTab`: nothing for a missing tab; otherwise an injection of content.js first, then the message only if the injection succeeded. The message is sent exactly when the tab exists and the injection succeeds. |
| LegacyBackground.Outcome | background.js:297-329 | The one message that settles a request: an explanation exactly for a parsed JSON response; otherwise an error, with the CORS text for an unparsable body and the wrapped text for no response or a rejected fetch. |
| LegacyBackground.LegacyBackground.SendMessageToTab | background.js:2-28 | Nothing happens for a missing tab. Otherwise `content.js` is injected, and the message is sent only when injection succeeds. |
| LegacyBackground.LegacyBackground.ExplainWithOllama | background.js:249-330 | The log grows by exactly `ExplainEvents`: processing through `sendMessageToTab`, the `/api/generate` request, then one outcome message. |
| LegacyBackground.LegacyBackground.OnClicked | background.js:40-72 | The log grows by exactly `ClickEvents` for the `explain-selection` item. |
| LegacyBackgroundFacts.EverySendFollowsInjection | background.js:2-28 | Every message sent through `sendMessageToTab` directly follows an injection of `content.js`. |
| LegacyBackgroundFacts.ExactlyOneTerminalMessage | background.js:249-330 | Exactly one explanation or error settles the request, and it is the last event. Possible outcomes: the whole `data.response`, the CORS text for an unparsable body, the API wrapper for a rejected or empty fetch, or the storage error alone. |
| LegacyBackgroundFacts.RequestUsesDefaults | background.js:252-295 | With nothing stored, the request goes to `http://localhost:11434/api/generate` with model `llama3`. |
| LegacyBackgroundFacts.NoMenuUpdates | background.js:40-72 | This version never disables or enables the menu item. |
| LegacyBackgroundFacts.ClickFallbacks | background.js:55-70 | Empty results read the page only. A rejected page script explains with "Context unavailable". |
| Formatter.Delimited | src/content.js:111-113 | `s.replace(/D(.*?)D/g, open + "$1" + close)` for a literal delimiter: at index `i`, a match when the delimiter occurs there and `FindClose` finds its close, and then the text between is wrapped and the scan resumes after the close; otherwise one character is copied. |
| Formatter.LinkAt | src/content.js:114 | At a `[`, the first `](` reachable without crossing a line terminator, then the first `)` after it, likewise; no match when the position is not `[` or either is missing. A match lies inside the text. |
| Formatter.Links | src/content.js:114 | `s.replace(/\[(.*?)\]\((.*?)\)/g, "<a href='$2'>$1</a>")`: each match `LinkAt` finds, left to right, becomes an anchor and the scan resumes after its `)`; other characters are copied. `LinkStep` is the step at one position, and `Anchor` is the replacement text. |
| Formatter.LinkMatch | src/content.js:114 | The regular expression as a relation: a match at `i` has `[` there, `](` at `j` and `)` at `k`, with neither group crossing a line terminator. |
| Formatter.ReplaceAll | src/content.js:115-116 | A global replace of a literal pattern: each occurrence, leftmost first and without overlap, becomes the replacement; other characters are copied. |
| Formatter.Bold | src/content.js:111 | `**t**` becomes `<strong>t</strong>`, through `Delimited`. |
| Formatter.Italic | src/content.js:112 | `*t*` becomes `<em>t</em>`, through `Delimited`. |
| Formatter.Code | src/content.js:113 | A backtick-delimited span becomes `<code>t</code>`, through `Delimited`. |
| Formatter.Paragraphs | src/content.js:115 | Each `\n\n` becomes `<br><br>`, through `ReplaceAll`. |
| Formatter.FormatChunk | src/content.js:110-116 | The chain of src/content.js in source order: bold, italic, code, links, paragraphs, then every remaining `\n` removed. |
| Formatter.FormatWhole | content.js:79-84 | The chain of content.js in source order: bold, italic, code, paragraphs, then every remaining `\n` becomes `<br>`; it has no link pass. |
| Formatter.FindClose | src/content.js:110-116 | Where a lazy `(.*?)` stops: the first occurrence of the closing delimiter, with no line terminator before it. None means there is no such occurrence. |
| FormatterFacts.FindCloseStopsAt | src/content.js:111-114 | The converse: the first clean occurrence of the delimiter is exactly what `FindClose` returns. |
| FormatterFacts.WrapsDelimitedSpan | src/content.js:111-113 | A span `d t d` on one line, with no delimiter inside `t`, becomes `open t close`, and scanning resumes after it. |
| FormatterFacts.DelimitedAtOpening | src/content.js:111-113 | Where the delimiter occurs and its close is found, the scan emits `open`, the text between, `close`, and goes on after the close. |
| FormatterFacts.DelimitedCopies | src/content.js:111-113 | Where no match can start, the scan copies one character and goes on with the next. |
| FormatterFacts.DelimitedIdentity | src/content.js:111-113 | Text without the delimiter's first character is left unchanged by a delimited pass. |
| FormatterFacts.LinksIdentity | src/content.js:114 | Text without `[` is left unchanged by the link pass. |
| FormatterFacts.LinkAtIsFirstMatch | src/content.js:114 | `LinkAt` finds nothing exactly when no match starts at `i` (both directions). Otherwise it finds a match, and that match's first group is the shortest and its second group the shortest of any match, which is what the lazy groups of a backtracking engine choose. |
| FormatterFacts.LinkCloseReachable | src/content.js:114 | The `)` of any match lies at or after the first `)` reachable on one line from the first `](`. So when that `)` is missing, a later `](` cannot give a match, because a line terminator lies between them. |
| FormatterFacts.WrapsLink | src/content.js:114 | A link `[t](u)` whose `t` holds no `](` and whose `u` holds no `)`, both on one line, becomes `<a href='u'>t</a>`, and the scan resumes right after the `)`. |
| FormatterFacts.LinkFoundAt | src/content.js:114 | At such a link, `LinkAt` ends the first group right after `t` and the second right after `u`. |
| FormatterFacts.LinkAtFound | src/content.js:114 | `LinkAt` pairs the first reachable `](` after `[` with the first reachable `)` after it. |
| FormatterFacts.LinksAtMatch | src/content.js:114 | Where `LinkAt` finds `(j, k)`, the link pass emits the anchor of the two groups and resumes after `k`. |
| FormatterFacts.LinkTextCloses | src/content.js:114 | A link text on one line with no `](` inside, followed by `](`, ends the first group right after it. |
| FormatterFacts.ClosesAfterUrl | src/content.js:114 | A url on one line with no `)` inside, followed by `)`, ends the second group right after it. |
| FormatterFacts.ReplaceAllIdentity | src/content.js:115-116 | Text without the pattern's first character is left unchanged by a global replace. |
| FormatterFacts.BoldSpan | src/content.js:111 | `**t**` becomes `<strong>t</strong>` for any text `t` without `*`, a backtick, `[` or a line terminator. |
| FormatterFacts.BoldChunk | src/content.js:110-116 | A chunk `**t**` with such a `t` comes out of the whole chain as `<strong>t</strong>`. |
| FormatterFacts.OpeningHalf | src/content.js:110-116 | A chunk `**a` whose bold markup is not closed comes out as `<em></em>a`: the bold pass finds no close, and the italic pass pairs the two stars. |
| FormatterFacts.ClosingHalf | src/content.js:110-116 | A chunk `b**` comes out as `b<em></em>`. |
| FormatterFacts.ReplaceAllRemovesChar | src/content.js:116 | Replacing a character globally by text without it leaves no occurrence of it. |
| FormatterFacts.FormattedHasNoNewline | src/content.js:110-116 | Neither formatter's output contains `\n`. |
| FormatterFacts.PlainChunkUnchanged | src/content.js:110-116 | A chunk without `*`, a backtick, `[` or `\n` is left unchanged. |
| FormatterFacts.PlainWholeUnchanged | content.js:79-84 | The older chain has no link pass: text without `*`, a backtick or `\n` is unchanged, brackets included. |
| FormatterFacts.SplitMarkupIsNotBold | src/content.js:110-119 | Chunks are formatted one at a time. `**ab**` in one chunk is bold, but split as `**a` and `b**` it becomes `<em></em>ab<em></em>`, which differs. |
| Dom.RemovePopup | src/content.js:255-260 | Only the first element holding the popup id is removed. An empty page is unchanged. |
| Dom.Document.RemoveExistingPopup | src/content.js:255-260 | The first popup is removed in place, and the timers are untouched. |
| Dom.Document.AppendPopup | src/content.js:54 | `document.body.appendChild(popup)`: the popup is added after the existing ones, and the timers are untouched. |
| Dom.Document.Schedule | src/content.js:251 | `setTimeout(removeExistingPopup, delay)`: one pending timer with that delay is added, and the popups are untouched. |
| Dom.Document.FireTimer | src/content.js:251 | A pending timer fires: it leaves the queue, and the first popup is removed. |
| DomFacts.RemoveIsIdempotent | src/content.js:255-260 | With at most one popup, removal leaves none, and removing again changes nothing. |
| DomFacts.RemoveTakesOnlyTheFirst | src/content.js:255-260 | Without the single-popup invariant, a later duplicate survives removal. |
| Renderer.EnsurePopup | src/content.js:32-55 | When a popup exists, the page is returned unchanged. Otherwise a single new, empty explanation popup is created. The result is never empty. |
| Renderer.FirstRegion | src/content.js:96 | The first popup holding a content region; none when no popup has one. |
| Renderer.EnsureRegion | src/content.js:96-107 | When a region exists, the page is unchanged and the index is that of the first popup holding one. Otherwise popup 0 gets an empty region, the other popups stay, and the index is 0. Either way, the index returned is where `getElementById` now finds the region. |
| Renderer.AppendToRegion | src/content.js:119 | `content.innerHTML += html`: the region of popup `k` ends with the text appended to what it held, and every other popup is unchanged. |
| Renderer.ShowExplanationPopup | src/content.js:26-124 | Updating the `Document` in place gives exactly `ExplanationStep`. |
| Renderer.ShowErrorPopup | src/content.js:201-252 | Updating the `Document` in place gives exactly `ErrorStep`. |
| Renderer.ShowProcessingPopup | src/content.js:127-198 | Updating the `Document` in place gives exactly `ProcessingStep`. |
| Renderer.OnMessage | src/content.js:5-23 | The listener updates the `Document` and replies exactly as `Handle`. |
| Renderer.ReplyStatus | src/content.js:8-20 | The `status` the sender sees: the status replied, or none when the listener does not reply or throws first. |
| Renderer.Fire | src/content.js:251-260 | A pending timer fires: it leaves the queue and `removeExistingPopup` removes whichever popup holds the id. |
| RendererFacts.HandlersKeepOnePopup | src/content.js:5-23 | Every message handler and every timer keeps at most one popup on the page. |
| RendererFacts.FreshPopupTakesChunk | src/content.js:32-119 | A popup created for a chunk holds exactly that chunk, formatted. |
| RendererFacts.FirstChunkStartsFresh | src/content.js:28-30 | Chunk 0 replaces whatever popup exists with one holding only that formatted chunk, and replies `success`. |
| RendererFacts.LaterChunkAppends | src/content.js:32-119 | A later chunk is appended to the existing popup's region, whatever its kind. A missing popup is recreated with only that chunk. |
| RendererFacts.StreamAccumulates | src/content.js:26-124 | Chunks 0..n-1 delivered in order leave one explanation popup whose region is the concatenation of the formatted chunks. |
| RendererFacts.ErrorPopupShowsMessage | src/content.js:201-252 | The error popup shows "Failed to get explanation: " followed by the message, and is scheduled for removal after 30,000 ms. |
| RendererFacts.OnlyErrorsSchedule | src/content.js:127-252 | Only the error handler schedules a removal. Processing and streaming popups stay. |
| RendererFacts.PingAndUnknownActions | src/content.js:18-20 | `ping` gets the reply `pong` and changes nothing. Unknown actions are ignored. |
| RendererFacts.DisplayReplies | src/content.js:8-17 | The replies are `success`, `error` and `processing` respectively. |
| RendererFacts.StaleTimerRemovesNewerPopup | src/content.js:251-260 | An error popup's timer removes whatever popup holds the id when it fires, including the next request's processing popup. |
| LegacyRenderer.ShowExplanationPopup | content.js:23-98 | Updating the `Document` in place gives exactly `LegacyExplanationStep`. |
| LegacyRenderer.OnMessage | content.js:5-20 | The listener updates the `Document` and replies exactly as `LegacyHandle`. |
| LegacyRenderer.LegacyDispatch | content.js:5-20 | With `k` registered listeners, a message is handled `k` times in turn, each listener acting on the page the previous one left. |
| LegacyRendererFacts.LegacyHandlersKeepOnePopup | content.js:5-20 | Every handler keeps at most one popup. Each display handler leaves exactly one. |
| LegacyRendererFacts.WholeExplanationReplaces | content.js:23-98 | The explanation popup shows the whole text, formatted and set rather than appended, and is removed after 120,000 ms. |
| LegacyRendererFacts.LegacyTimers | content.js:97-223 | Explanations are removed after 120 s and errors after 30 s. Processing popups are never removed by a timer. |
| LegacyRendererFacts.RepeatedListenersMultiplyTimers | content.js:5-97 | Each injection adds a listener. After `k` injections a whole explanation still leaves exactly one popup with the formatted text, but schedules `k` removals of 120 s each. |
| LegacyRendererFacts.ChunkIsNotUnderstood | content.js:23-86 | A streamed chunk object only removes the popup, and the handler throws. |
| LegacyRendererFacts.HandshakeAgainstEachScript | content.js:5-20 | content.js never answers `ping`, so the src/background.js handshake always re-injects against it. Against src/content.js nothing is injected. |
| ManifestPrep.StripEach | scripts/prepare-manifest.js:27-39 | The `forEach` over an icon table removes the first "dist/" from every value, and keeps the keys. |
| ManifestPrep.RemoveFirst | scripts/prepare-manifest.js:16-17 | `s.replace("dist/", "")` with a string pattern: only the first occurrence is cut, and a string without one is kept. |
| ManifestPrep.StripValues | scripts/prepare-manifest.js:28-38 | Every value of an icon table loses its first "dist/", and the keys are kept. |
| ManifestPrep.StripPath | scripts/prepare-manifest.js:15-25 | A path field is rewritten only when it is present and non-empty, the truthiness guard; whether it is present does not change. |
| ManifestPrep.IconAssignmentThrows | scripts/prepare-manifest.js:27-31 | A non-empty string `default_icon` passes the guard, and assigning to one of its indices throws a TypeError in strict mode. |
| ManifestPrep.Rewritten | scripts/prepare-manifest.js:14-39 | The manifest after the rewrite block. Both paths go through `StripPath`. Then a throwing icon stops the block, leaving the icon and `icons` as they were. Otherwise an icon table and `icons` go through `StripValues`, and a string icon and the other fields are kept. |
| ManifestPrep.Prepared | scripts/prepare-manifest.js:7-53 | The rewritten manifest is written exactly when the file was read and parsed, the rewrite did not throw and the write succeeded; otherwise the script exits with 1. |
| ManifestPrep.Manifest.RewritePaths | scripts/prepare-manifest.js:14-39 | The in-place field updates leave the manifest equal to `Rewritten` of the old one. The block throws exactly when `default_icon` is a non-empty string; the two paths are already rewritten then, and the icon tables are not. |
| ManifestPrep.PrepareManifest | scripts/prepare-manifest.js:7-53 | A read, parse or write failure, or a throwing rewrite, exits with 1. Otherwise the rewritten manifest is written. |
| ManifestFacts.RemoveFirstWithoutMatch | scripts/prepare-manifest.js:17 | A path without "dist/" is unchanged. |
| ManifestFacts.RemoveFirstCutsFirst | scripts/prepare-manifest.js:15-18 | Exactly the first occurrence is cut, and putting it back restores the path. |
| ManifestFacts.StripsLeadingDist | scripts/prepare-manifest.js:15-18 | A path that starts with "dist/" loses exactly that prefix. |
| ManifestFacts.RemovesInsideThePath | scripts/prepare-manifest.js:35-39 | An illustration of `RemoveFirstCutsFirst`: "dist/" is removed wherever it first occurs, not only as a prefix, so `icons/dist/a.png` becomes `icons/a.png`. |
| ManifestFacts.RewriteIsNotIdempotent | scripts/prepare-manifest.js:15-18 | Only one "dist/" goes per run. A service worker at `dist/dist/name` becomes `dist/name`, and a second run gives `name`. |
| ManifestFacts.RewriteKeepsShape | scripts/prepare-manifest.js:14-39 | Icon tables keep their keys, and a single-path icon stays as it is. Absent or empty fields stay as they are, and every other field is untouched. |
| ManifestFacts.CleanManifestUnchanged | scripts/prepare-manifest.js:14-39 | A manifest with no "dist/" in any rewritten value, and no throwing icon, comes out unchanged. |
| ManifestFacts.FailuresExitWithOne | scripts/prepare-manifest.js:7-53 | The script exits exactly when an input or write step fails, or the icon rewrite throws, always with code 1. A written manifest is the rewritten one. |
| ManifestFacts.StringIconIsNotRewritten | scripts/prepare-manifest.js:27-33 | A non-empty string `default_icon` makes the script exit with 1, writing nothing. An empty one fails the guard and is kept. |

## Left out

- Chrome APIs (`contextMenus`, `tabs`, `scripting`, `storage`, `runtime`) are not called. What they report is an input, and what the scripts ask of them is a logged event.
- The Ollama client and `fetch` are not modelled. Their outcomes are inputs: a rejection, a chunk sequence optionally ending in a throw, or a parsed response.
- Asynchronous interleaving is not modelled. Promise chains and callbacks run to completion in program order, so two overlapping clicks are not modelled either.
- In background.js, `sendMessageToTab` for the processing message completes inside a `chrome.tabs.get` callback. The model logs it before the request, as if it had run synchronously.
- The prompt text is not modelled. Each request records the selection and the context that go into it.
- Console logging is not modelled.
- Popup styling, titles, the spinner and the `<style>` elements appended to the head are not modelled. The close button's click handler is `removeExistingPopup`, modelled as `Dom.Document.RemoveExistingPopup`.
- `document.querySelector` matching is not modelled. The first match of the content selector is an optional input.
- `getComputedStyle(node).display` is not modelled. It is the `computedBlock` flag of each element.
- `setTimeout` delays are not waited out. A timer is a pending entry that may fire at any later point.
- The `contentScriptReady` message is not modelled.
- src/popup.js (the settings page, whose default model is `gemma3`, while the background scripts default to `llama3`) is not part of this model.
- The manifest's file I/O, `JSON.parse` and `JSON.stringify(manifest, null, 2)` formatting are not modelled. They are the `Input` value and the write flag. Manifest fields other than the four rewritten ones are opaque.
- A non-string path value in the manifest (a service worker, popup or icon-table entry), for which `.replace` would throw, is not modelled. A string `default_icon` is modelled.
- Extractor.GetPageContent: lengths are counted in code points, not the UTF-16 code units of `String.length` and `substring`. For text with characters outside the Basic Multilingual Plane, the cut point therefore differs.
- `toLowerCase` is modelled on ASCII letters only. Tag names are ASCII.
- Renderer.AppendToRegion and RendererFacts.StreamAccumulates treat `innerHTML` as a plain string. The browser's serialising and re-parsing on `innerHTML +=` is not modelled: escaping of text `<` and `&`, normalised attribute quoting, and closing of open tags. LegacyRendererFacts.WholeExplanationReplaces likewise takes the content it sets as a plain string.
- Renderer.OnMessage and LegacyRenderer.OnMessage model a page with one listener. Every injection of content.js runs the file again and adds one more `onMessage` listener, and the background models do not count the listeners on a page. background.js injects before every `sendMessageToTab`. src/background.js injects on every handshake that gets no pong, which always happens against content.js. `LegacyRenderer.LegacyDispatch` models `k` listeners for a message. LegacyRendererFacts.RepeatedListenersMultiplyTimers states what that does to a whole explanation. For other messages, and for src/content.js, handling by several listeners is not modelled.
- The `getPageContent` of background.js is not modelled; Extractor and Serializer model src/background.js only. The text of the background.js copy matches, but it calls the top-level `htmlToMarkdown`. When the function is injected with `func:`, Chrome sends only the function's own source, so that name is undefined in the page and the call fails with a ReferenceError. LegacyBackground.LegacyBackground.OnClicked takes the page-script outcome as an input, result or rejection. The rejection path explains with "Context unavailable", as LegacyBackgroundFacts.ClickFallbacks states.
- LegacyRendererFacts.HandshakeAgainstEachScript: content.js's listener returns `true` for `ping` without calling `sendResponse`, so the ping's promise stays pending until Chrome closes the channel. The model assumes that unanswered ping eventually rejects, giving no reply and an injection. A ping that never settles is not modelled; the click would then hang with the menu item disabled.
- In background.js, a `data.response` that is not a string is not modelled. The explanation is always a string.

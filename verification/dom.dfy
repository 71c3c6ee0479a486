/**
 * The part of a page's DOM that the content scripts touch: the elements that
 * hold the id `ollama-explanation-popup`, in document order, and the pending
 * `setTimeout(removeExistingPopup, delay)` calls.
 */
module Dom {
  import opened JsString

  /** What a popup shows: the kind it was created as (its title and colours). */
  datatype Kind = Processing(message: string) | Explanation | Error(text: string)

  /**
   * A popup element. `region` is the HTML of the element with id
   * `ollama-explanation-content` inside it (src/content.js), or the content
   * of the explanation popup (content.js); `None` when it has none.
   */
  datatype Popup = Popup(kind: Kind, region: Option<string>)

  /** The page state the content scripts read and write. */
  datatype Page = Page(popups: seq<Popup>, timers: seq<nat>)

  /** The page keeps at most one popup. */
  predicate Singleton(p: Page) {
    |p.popups| <= 1
  }

  /**
   * `removeExistingPopup`: `getElementById` finds the first element holding
   * the id, and only that one is removed.
   */
  function RemovePopup(popups: seq<Popup>): (r: seq<Popup>)
    ensures popups == [] ==> r == []
    ensures popups != [] ==> popups == [popups[0]] + r
  {
    if popups == [] then [] else popups[1..]
  }

  class Document {
    var popups: seq<Popup>
    var timers: seq<nat>

    function State(): Page
      reads this
    {
      Page(popups, timers)
    }

    constructor (initial: Page)
      ensures State() == initial
    {
      popups := initial.popups;
      timers := initial.timers;
    }

    method RemoveExistingPopup()
      modifies this
      ensures popups == RemovePopup(old(popups))
      ensures timers == old(timers)
    {
      if popups != [] {
        popups := popups[1..];
      }
    }

    /** `document.body.appendChild(popup)` for a popup holding the id. */
    method AppendPopup(p: Popup)
      modifies this
      ensures popups == old(popups) + [p]
      ensures timers == old(timers)
    {
      popups := popups + [p];
    }

    /** `setTimeout(removeExistingPopup, delay)`. */
    method Schedule(delay: nat)
      modifies this
      ensures popups == old(popups)
      ensures timers == old(timers) + [delay]
    {
      timers := timers + [delay];
    }

    /** The `i`-th pending timer fires: it is dropped and `removeExistingPopup` runs. */
    method FireTimer(i: nat)
      requires i < |timers|
      modifies this
      ensures popups == RemovePopup(old(popups))
      ensures timers == old(timers[..i] + timers[i + 1..])
    {
      timers := timers[..i] + timers[i + 1..];
      RemoveExistingPopup();
    }
  }
}

/** What `removeExistingPopup` promises. */
module DomFacts {
  import opened Dom

  /**
   * With at most one popup, removing leaves none, and a second removal
   * finds nothing and changes nothing.
   */
  lemma RemoveIsIdempotent(popups: seq<Popup>)
    requires |popups| <= 1
    ensures RemovePopup(popups) == []
    ensures RemovePopup(RemovePopup(popups)) == RemovePopup(popups)
  {
  }

  /** Without the singleton invariant a removal leaves the later duplicates behind. */
  lemma RemoveTakesOnlyTheFirst(a: Popup, b: Popup)
    ensures RemovePopup([a, b]) == [b]
  {
  }
}

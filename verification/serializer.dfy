/**
 * The HTML-to-Markdown serializer `htmlToMarkdown`, nested in
 * `getPageContent` in src/background.js so that it travels with the
 * function when that is injected into the page.
 *
 * A DOM node is a value: a text node, an element with the few properties
 * the serializer reads, or any other node (comments and the like).
 * `NodeMarkdown`/`ChildrenMarkdown` give the exact text each node
 * contributes; the method `HtmlToMarkdown` is the source's accumulator loop,
 * proved to produce that text.
 */
module Serializer {
  import opened JsString

  datatype Node =
    | Text(data: string)
      /** An element as the serializer sees it. `tagName` is the DOM's raw
          `tagName`; `href`, `alt` and `src` are the element's properties, the
          empty string standing for an absent or falsy one; `displayNone` and
          `visibilityHidden` are its inline `style.display === "none"` and
          `style.visibility === "hidden"`; `computedBlock` is
          `getComputedStyle(node).display === "block"`. */
    | Element(tagName: string, href: string, alt: string, src: string,
              displayNone: bool, visibilityHidden: bool, computedBlock: bool,
              children: seq<Node>)
    | OtherNode

  /** `node.childNodes`: only an element has children. */
  function ChildNodes(n: Node): seq<Node> {
    if n.Element? then n.children else []
  }

  /** Elements that are neither printed nor descended into. */
  predicate IsSkipped(n: Node)
    requires n.Element?
  {
    || n.tagName in ["SCRIPT", "STYLE", "SVG", "NOSCRIPT"]
    || n.displayNone
    || n.visibilityHidden
  }

  /** An `img` with both `alt` and `src` is printed as a Markdown image. */
  predicate IsImageLeaf(n: Node)
    requires n.Element?
  {
    LowerAscii(n.tagName) == "img" && n.alt != "" && n.src != ""
  }

  /**
   * The prefix and suffix written around an element's children, by its
   * lower-cased tag name, in the order of the source's `switch`; tags not
   * listed there get neither.
   */
  function Affixes(n: Node): (string, string)
    requires n.Element?
  {
    var tag := LowerAscii(n.tagName);
    if tag == "h1" then ("\n# ", "\n")
    else if tag == "h2" then ("\n## ", "\n")
    else if tag == "h3" then ("\n### ", "\n")
    else if tag == "h4" || tag == "h5" || tag == "h6" then ("\n#### ", "\n")
    else if tag == "p" then ("\n", "\n")
    else if tag == "br" then ("\n", "")
    else if tag == "hr" then ("\n---\n", "")
    else if tag == "ul" then ("\n", "\n")
    else if tag == "ol" then ("\n", "\n")
    else if tag == "li" then ("* ", "\n")
    else if tag == "a" then (if n.href != "" then ("[", "](" + n.href + ")") else ("", ""))
    else if tag == "strong" || tag == "b" then ("**", "**")
    else if tag == "em" || tag == "i" then ("*", "*")
    else if tag == "code" then ("`", "`")
    else if tag == "pre" then ("\n```\n", "\n```\n")
    else if tag == "blockquote" then ("\n> ", "\n")
    else if tag == "img" then ("", "")
    else if tag == "table" then ("\n", "\n")
    else if tag == "tr" then ("", "\n")
    else if tag == "th" || tag == "td" then ("| ", " ")
    else if tag == "div" then (if n.computedBlock then ("\n", "\n") else ("", ""))
    else ("", "")
  }

  /** What one child node adds to its parent's Markdown. */
  function NodeMarkdown(n: Node): string
    decreases n, 1
  {
    match n
    case Text(data) =>
      var text := Trim(data);
      if text != "" then text + " " else ""
    case OtherNode => ""
    case Element(_, _, alt, src, _, _, _, children) =>
      if IsSkipped(n) then ""
      else if IsImageLeaf(n) then "![" + alt + "](" + src + ")"
      else Affixes(n).0 + ChildrenMarkdown(children) + Affixes(n).1
  }

  /** The Markdown of a list of sibling nodes: their contributions in order. */
  function ChildrenMarkdown(ns: seq<Node>): string
    decreases ns, 0
  {
    if ns == [] then ""
    else ChildrenMarkdown(ns[..|ns| - 1]) + NodeMarkdown(ns[|ns| - 1])
  }

  lemma ChildrenMarkdownStep(ns: seq<Node>, i: nat, before: string, after: string)
    requires i < |ns| && before == ChildrenMarkdown(ns[..i]) && after == before + NodeMarkdown(ns[i])
    ensures after == ChildrenMarkdown(ns[..i + 1])
  {
    assert ns[..i + 1][..i] == ns[..i];
  }

  lemma AppendAssoc(a: string, b: string, c: string, d: string)
    ensures a + b + c + d == a + (b + c + d)
  {
  }

  /** The `switch` on the lower-cased tag name that picks an element's prefix and suffix. */
  method SwitchAffixes(n: Node) returns (prefix: string, suffix: string)
    requires n.Element?
    ensures (prefix, suffix) == Affixes(n)
  {
    var tag := LowerAscii(n.tagName);
    prefix, suffix := "", "";
    if tag == "h1" {
      prefix, suffix := "\n# ", "\n";
    } else if tag == "h2" {
      prefix, suffix := "\n## ", "\n";
    } else if tag == "h3" {
      prefix, suffix := "\n### ", "\n";
    } else if tag == "h4" || tag == "h5" || tag == "h6" {
      prefix, suffix := "\n#### ", "\n";
    } else if tag == "p" {
      prefix, suffix := "\n", "\n";
    } else if tag == "br" {
      prefix := "\n";
    } else if tag == "hr" {
      prefix := "\n---\n";
    } else if tag == "ul" {
      prefix, suffix := "\n", "\n";
    } else if tag == "ol" {
      prefix, suffix := "\n", "\n";
    } else if tag == "li" {
      prefix, suffix := "* ", "\n";
    } else if tag == "a" {
      if n.href != "" {
        prefix, suffix := "[", "](" + n.href + ")";
      }
    } else if tag == "strong" || tag == "b" {
      prefix, suffix := "**", "**";
    } else if tag == "em" || tag == "i" {
      prefix, suffix := "*", "*";
    } else if tag == "code" {
      prefix, suffix := "`", "`";
    } else if tag == "pre" {
      prefix, suffix := "\n```\n", "\n```\n";
    } else if tag == "blockquote" {
      prefix, suffix := "\n> ", "\n";
    } else if tag == "img" {
      // an image with alt and src is a leaf, handled by the caller
    } else if tag == "table" {
      prefix, suffix := "\n", "\n";
    } else if tag == "tr" {
      suffix := "\n";
    } else if tag == "th" || tag == "td" {
      prefix, suffix := "| ", " ";
    } else if tag == "div" {
      if n.computedBlock {
        prefix, suffix := "\n", "\n";
      }
    }
  }

  /**
   * `htmlToMarkdown(element)`: walks `element.childNodes` with a local
   * accumulator, recursing into every element that is not skipped.
   */
  method HtmlToMarkdown(element: Node) returns (markdown: string)
    decreases element
    ensures markdown == ChildrenMarkdown(ChildNodes(element))
  {
    markdown := "";
    var nodes := ChildNodes(element);
    var i := 0;
    while i < |nodes|
      invariant 0 <= i <= |nodes|
      invariant markdown == ChildrenMarkdown(nodes[..i])
    {
      var node := nodes[i];
      ghost var before := markdown;
      match node {
        case Text(data) =>
          var text := Trim(data);
          assert NodeMarkdown(node) == if text != "" then text + " " else "";
          if text != "" {
            markdown := markdown + (text + " ");
          }
        case OtherNode =>
          assert NodeMarkdown(node) == "";
        case Element(tagName, _, alt, src, displayNone, visibilityHidden, _, _) =>
          if !(tagName in ["SCRIPT", "STYLE", "SVG", "NOSCRIPT"] || displayNone || visibilityHidden) {
            assert !IsSkipped(node);
            var tag := LowerAscii(tagName);
            var prefix, suffix := SwitchAffixes(node);
            if tag == "img" && alt != "" && src != "" {
              var image := "![" + alt + "](" + src + ")";
              assert IsImageLeaf(node) && NodeMarkdown(node) == image;
              markdown := markdown + image;
            } else {
              assert !IsImageLeaf(node) && NodeMarkdown(node) == prefix + ChildrenMarkdown(ChildNodes(node)) + suffix;
              markdown := markdown + prefix;
              var inner := HtmlToMarkdown(node);
              markdown := markdown + inner;
              markdown := markdown + suffix;
              AppendAssoc(before, prefix, inner, suffix);
            }
          }
      }
      ChildrenMarkdownStep(nodes, i, before, markdown);
      i := i + 1;
    }
    assert nodes[..i] == nodes;
  }
}

/** Properties of the serializer's output. */
module SerializerFacts {
  import opened JsString
  import opened Serializer

  /** A text node contributes its trimmed text and exactly one space, or nothing when it is blank. */
  lemma TextNodeContribution(data: string)
    ensures AllWhitespace(data) ==> NodeMarkdown(Text(data)) == ""
    ensures !AllWhitespace(data) ==>
      var r := NodeMarkdown(Text(data));
      |r| >= 2 && r == Trim(data) + " " && !IsJsWhitespace(r[|r| - 2])
  {
  }

  lemma AppendAssoc3(a: string, b: string, c: string)
    ensures a + b + c == a + (b + c)
  {
  }

  /** A skipped element contributes nothing, whatever its children are. */
  lemma SkippedElementContributesNothing(n: Node)
    requires n.Element? && IsSkipped(n)
    ensures NodeMarkdown(n) == ""
  {
  }

  /** Siblings serialize independently: the Markdown of a concatenation is the concatenation. */
  lemma {:induction false} ChildrenMarkdownAppend(a: seq<Node>, b: seq<Node>)
    ensures ChildrenMarkdown(a + b) == ChildrenMarkdown(a) + ChildrenMarkdown(b)
    decreases |b|
  {
    if b == [] {
      assert a + b == a;
    } else {
      var b' := b[..|b| - 1];
      assert (a + b)[..|a + b| - 1] == a + b';
      assert (a + b)[|a + b| - 1] == b[|b| - 1];
      var x := b[|b| - 1];
      calc {
        ChildrenMarkdown(a + b);
        ChildrenMarkdown(a + b') + NodeMarkdown(x);
        { ChildrenMarkdownAppend(a, b'); }
        ChildrenMarkdown(a) + ChildrenMarkdown(b') + NodeMarkdown(x);
        { AppendAssoc3(ChildrenMarkdown(a), ChildrenMarkdown(b'), NodeMarkdown(x)); }
        ChildrenMarkdown(a) + (ChildrenMarkdown(b') + NodeMarkdown(x));
      }
    }
  }

  /** The tag names the source's `switch` has a case for. */
  const SwitchTags: seq<string> := [
    "h1", "h2", "h3", "h4", "h5", "h6", "p", "br", "hr", "ul", "ol", "li", "a",
    "strong", "b", "em", "i", "code", "pre", "blockquote", "img", "table",
    "tr", "th", "td", "div"]

  /** An element whose tag has no case in the `switch` adds only its children's Markdown. */
  lemma UnlistedTagIsTransparent(n: Node)
    requires n.Element? && !IsSkipped(n) && LowerAscii(n.tagName) !in SwitchTags
    ensures NodeMarkdown(n) == ChildrenMarkdown(n.children)
  {
    var tag := LowerAscii(n.tagName);
    assert tag != "h1" && tag != "h2" && tag != "h3" && tag != "h4" && tag != "h5" && tag != "h6";
    assert tag != "p" && tag != "br" && tag != "hr" && tag != "ul" && tag != "ol" && tag != "li";
    assert tag != "a" && tag != "strong" && tag != "b" && tag != "em" && tag != "i" && tag != "code";
    assert tag != "pre" && tag != "blockquote" && tag != "img" && tag != "table" && tag != "tr";
    assert tag != "th" && tag != "td" && tag != "div";
    assert Affixes(n) == ("", "");
    assert "" + ChildrenMarkdown(n.children) + "" == ChildrenMarkdown(n.children);
  }

  /** An anchor becomes a Markdown link exactly when its `href` is set. */
  lemma AnchorWrapsOnlyWithHref(n: Node)
    requires n.Element? && !IsSkipped(n) && LowerAscii(n.tagName) == "a"
    ensures n.href != "" ==> NodeMarkdown(n) == "[" + ChildrenMarkdown(n.children) + "](" + n.href + ")"
    ensures n.href == "" ==> NodeMarkdown(n) == ChildrenMarkdown(n.children)
  {
  }

  /** A `div` is set off by newlines exactly when its computed display is `block`. */
  lemma DivWrapsOnlyWhenBlock(n: Node)
    requires n.Element? && !IsSkipped(n) && LowerAscii(n.tagName) == "div"
    ensures n.computedBlock ==> NodeMarkdown(n) == "\n" + ChildrenMarkdown(n.children) + "\n"
    ensures !n.computedBlock ==> NodeMarkdown(n) == ChildrenMarkdown(n.children)
  {
    assert !IsImageLeaf(n);
    assert Affixes(n) == if n.computedBlock then ("\n", "\n") else ("", "");
    if !n.computedBlock {
      assert "" + ChildrenMarkdown(n.children) + "" == ChildrenMarkdown(n.children);
    }
  }

  /**
   * An `img` with both `alt` and `src` is a leaf: it prints exactly
   * `![alt](src)`, and its children do not matter. Without both it is
   * transparent.
   */
  lemma ImageIsLeaf(n: Node, other: seq<Node>)
    requires n.Element? && !IsSkipped(n) && LowerAscii(n.tagName) == "img"
    ensures n.alt != "" && n.src != "" ==>
      && NodeMarkdown(n) == "![" + n.alt + "](" + n.src + ")"
      && NodeMarkdown(n.(children := other)) == NodeMarkdown(n)
    ensures !(n.alt != "" && n.src != "") ==> NodeMarkdown(n) == ChildrenMarkdown(n.children)
  {
  }

  /**
   * The skip list is compared with the raw `tagName`, case-sensitively, while
   * the `switch` lower-cases it: an element whose `tagName` is `svg` (the
   * spelling the DOM reports for inline SVG in an HTML document) is not
   * skipped, and its children are serialized as for any unlisted tag.
   */
  lemma LowerCaseSvgIsNotSkipped(n: Node)
    requires n.Element? && n.tagName == "svg" && !n.displayNone && !n.visibilityHidden
    ensures !IsSkipped(n)
    ensures NodeMarkdown(n) == ChildrenMarkdown(n.children)
  {
    assert LowerAscii("svg") == "svg";
    assert "svg" !in SwitchTags;
    UnlistedTagIsTransparent(n);
  }
}

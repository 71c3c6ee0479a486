/**
 * The Markdown-to-HTML formatters of the two content scripts: chains of
 * global `.replace` calls with lazy `(.*?)` groups. Each pass is a
 * left-to-right scan: at each position it either matches the pattern there
 * (and resumes after the match) or copies one character and moves on. The
 * `.` of a JavaScript regular expression matches anything except the line
 * terminators `\n`, `\r`, U+2028 and U+2029.
 */
module Formatter {
  import opened JsString

  predicate IsLineTerminator(c: char) {
    c == '\n' || c == '\r' || c == '\U{2028}' || c == '\U{2029}'
  }

  /** `s[from..to]` could be matched by `.*`. */
  predicate Clean(s: string, from: nat, to: nat)
    requires from <= to <= |s|
  {
    forall k :: from <= k < to ==> !IsLineTerminator(s[k])
  }

  /**
   * Where a lazy `(.*?)` starting at `from` and followed by `close` stops:
   * the first occurrence of `close` at or after `from`, provided no line
   * terminator comes before it.
   */
  function FindClose(s: string, close: string, from: nat): (r: Option<nat>)
    requires from <= |s|
    decreases |s| - from
    ensures r.Some? ==> from <= r.value && OccursAt(s, close, r.value) && Clean(s, from, r.value)
    ensures r.Some? ==> forall k :: from <= k < r.value ==> !OccursAt(s, close, k)
    ensures r.None? ==> forall k :: from <= k <= |s| && OccursAt(s, close, k) ==> !Clean(s, from, k)
  {
    if from + |close| > |s| then None
    else if s[from..from + |close|] == close then Some(from)
    else if IsLineTerminator(s[from]) then None
    else
      var r := FindClose(s, close, from + 1);
      assert r.None? ==> forall k :: from <= k <= |s| && OccursAt(s, close, k) ==> !Clean(s, from, k) by {
        if r.None? {
          forall k | from <= k <= |s| && OccursAt(s, close, k) ensures !Clean(s, from, k) {
            if k > from {
              assert !Clean(s, from + 1, k);
            }
          }
        }
      }
      r
  }

  /**
   * `s.replace(/D(.*?)D/g, open + "$1" + close)` for the literal delimiter `d`
   * (`**`, `*` or a backtick), scanning from index `i`.
   */
  function Delimited(s: string, d: string, open: string, close: string, i: nat): (r: string)
    requires |d| > 0
    decreases |s| - i
  {
    if i >= |s| then []
    else if OccursAt(s, d, i) && FindClose(s, d, i + |d|).Some? then
      var j := FindClose(s, d, i + |d|).value;
      open + s[i + |d|..j] + close + Delimited(s, d, open, close, j + |d|)
    else [s[i]] + Delimited(s, d, open, close, i + 1)
  }

  /**
   * Where `[text](url)` starting at `i` ends, as `(j, k)` with `](` at `j` and
   * `)` at `k`. The lazy groups take the first `](` and then the first `)`;
   * when that `)` is missing no later `](` can help, because a line
   * terminator then lies inside the first group (`LinkCloseReachable`,
   * `LinkAtIsFirstMatch`).
   */
  function LinkAt(s: string, i: nat): (r: Option<(nat, nat)>)
    requires i < |s|
    ensures r.Some? ==> i + 1 <= r.value.0 && r.value.0 + 2 <= r.value.1 < |s|
  {
    if s[i] != '[' then None
    else match FindClose(s, "](", i + 1)
      case None => None
      case Some(j) =>
        match FindClose(s, ")", j + 2)
        case None => None
        case Some(k) => Some((j, k))
  }

  /**
   * The regular expression `\[(.*?)\]\((.*?)\)` can match at `i` with the
   * first group ending at `j` and the second at `k`.
   */
  predicate LinkMatch(s: string, i: nat, j: nat, k: nat) {
    i < |s| && s[i] == '[' && i + 1 <= j && j + 2 <= k < |s|
    && OccursAt(s, "](", j) && Clean(s, i + 1, j) && s[k] == ')' && Clean(s, j + 2, k)
  }

  /** The replacement `<a href='$2'>$1</a>` for the url and the link text. */
  function Anchor(url: string, text: string): string {
    "<a href='" + url + "'>" + text + "</a>"
  }

  /** `s.replace(/\[(.*?)\]\((.*?)\)/g, "<a href='$2'>$1</a>")`, scanning from index `i`. */
  function Links(s: string, i: nat): (r: string)
    decreases |s| - i, 1
  {
    if i >= |s| then [] else LinkStep(s, i, LinkAt(s, i))
  }

  /**
   * The link pass at `i`, given the match `m` found there: the anchor and
   * the rest after its `)`, or the character and the rest after it.
   */
  function LinkStep(s: string, i: nat, m: Option<(nat, nat)>): (r: string)
    requires i < |s| && (m.Some? ==> i + 1 <= m.value.0 && m.value.0 + 2 <= m.value.1 < |s|)
    decreases |s| - i, 0
  {
    match m
    case Some((j, k)) => Anchor(s[j + 2..k], s[i + 1..j]) + Links(s, k + 1)
    case None => [s[i]] + Links(s, i + 1)
  }

  /** `s.replace(/P/g, rep)` for a literal pattern `pat`, scanning from index `i`. */
  function ReplaceAll(s: string, pat: string, rep: string, i: nat): (r: string)
    requires |pat| > 0
    decreases |s| - i
  {
    if i >= |s| then []
    else if OccursAt(s, pat, i) then rep + ReplaceAll(s, pat, rep, i + |pat|)
    else [s[i]] + ReplaceAll(s, pat, rep, i + 1)
  }

  function Bold(s: string): string { Delimited(s, "**", "<strong>", "</strong>", 0) }
  function Italic(s: string): string { Delimited(s, "*", "<em>", "</em>", 0) }
  function Code(s: string): string { Delimited(s, "`", "<code>", "</code>", 0) }
  function Paragraphs(s: string): string { ReplaceAll(s, "\n\n", "<br><br>", 0) }

  /** The chain of src/content.js, applied to each streamed chunk. */
  function FormatChunk(s: string): string {
    ReplaceAll(Paragraphs(Links(Code(Italic(Bold(s))), 0)), "\n", "", 0)
  }

  /** The chain of content.js, applied to the whole explanation: no links, `\n` becomes `<br>`. */
  function FormatWhole(s: string): string {
    ReplaceAll(Paragraphs(Code(Italic(Bold(s)))), "\n", "<br>", 0)
  }
}

/** What the formatter passes promise. */
module FormatterFacts {
  import opened JsString
  import opened Formatter

  /** A pass that replaces a single character by text without it leaves none of it. */
  lemma {:induction false} ReplaceAllRemovesChar(s: string, c: char, rep: string, i: nat)
    requires c !in rep
    decreases |s| - i
    ensures c !in ReplaceAll(s, [c], rep, i)
  {
    if i < |s| {
      ReplaceAllRemovesChar(s, c, rep, i + 1);
      if !OccursAt(s, [c], i) {
        assert s[i..i + 1] == [s[i]];
      }
    }
  }

  /** Both formatters produce text without `\n`. */
  lemma FormattedHasNoNewline(s: string)
    ensures '\n' !in FormatChunk(s)
    ensures '\n' !in FormatWhole(s)
  {
    ReplaceAllRemovesChar(Paragraphs(Links(Code(Italic(Bold(s))), 0)), '\n', "", 0);
    ReplaceAllRemovesChar(Paragraphs(Code(Italic(Bold(s)))), '\n', "<br>", 0);
  }

  /** `s` has no `c` from index `i` on. */
  predicate Lacks(s: string, c: char, i: nat) {
    forall k :: i <= k < |s| ==> s[k] != c
  }

  lemma {:induction false} DelimitedIdentity(s: string, d: string, open: string, close: string, i: nat)
    requires |d| > 0 && Lacks(s, d[0], i)
    decreases |s| - i
    ensures i <= |s| ==> Delimited(s, d, open, close, i) == s[i..]
  {
    if i < |s| {
      assert i + |d| <= |s| ==> s[i..i + |d|][0] == s[i];
      DelimitedIdentity(s, d, open, close, i + 1);
      assert s[i..] == [s[i]] + s[i + 1..];
    }
  }

  lemma {:induction false} LinksIdentity(s: string, i: nat)
    requires Lacks(s, '[', i)
    decreases |s| - i
    ensures i <= |s| ==> Links(s, i) == s[i..]
  {
    if i < |s| {
      LinksIdentity(s, i + 1);
      assert s[i..] == [s[i]] + s[i + 1..];
    }
  }

  lemma {:induction false} ReplaceAllIdentity(s: string, pat: string, rep: string, i: nat)
    requires |pat| > 0 && Lacks(s, pat[0], i)
    decreases |s| - i
    ensures i <= |s| ==> ReplaceAll(s, pat, rep, i) == s[i..]
  {
    if i < |s| {
      assert i + |pat| <= |s| ==> s[i..i + |pat|][0] == s[i];
      ReplaceAllIdentity(s, pat, rep, i + 1);
      assert s[i..] == [s[i]] + s[i + 1..];
    }
  }

  /** Text with no `*`, backtick, `[` or `\n` passes the src/content.js chain unchanged. */
  lemma PlainChunkUnchanged(s: string)
    requires Lacks(s, '*', 0) && Lacks(s, '`', 0) && Lacks(s, '[', 0) && Lacks(s, '\n', 0)
    ensures FormatChunk(s) == s
  {
    DelimitedIdentity(s, "**", "<strong>", "</strong>", 0);
    DelimitedIdentity(s, "*", "<em>", "</em>", 0);
    DelimitedIdentity(s, "`", "<code>", "</code>", 0);
    LinksIdentity(s, 0);
    ReplaceAllIdentity(s, "\n\n", "<br><br>", 0);
    ReplaceAllIdentity(s, "\n", "", 0);
  }

  /** The content.js chain has no link pass: text with no `*`, backtick or `\n` is unchanged, brackets and all. */
  lemma PlainWholeUnchanged(s: string)
    requires Lacks(s, '*', 0) && Lacks(s, '`', 0) && Lacks(s, '\n', 0)
    ensures FormatWhole(s) == s
  {
    DelimitedIdentity(s, "**", "<strong>", "</strong>", 0);
    DelimitedIdentity(s, "*", "<em>", "</em>", 0);
    DelimitedIdentity(s, "`", "<code>", "</code>", 0);
    ReplaceAllIdentity(s, "\n\n", "<br><br>", 0);
    ReplaceAllIdentity(s, "\n", "<br>", 0);
  }

  /** The lazy group stops at the first occurrence of `close` reached without crossing a line end. */
  lemma FindCloseStopsAt(s: string, close: string, from: nat, j: nat)
    requires from <= j && OccursAt(s, close, j) && Clean(s, from, j)
    requires forall k :: from <= k < j ==> !OccursAt(s, close, k)
    ensures FindClose(s, close, from) == Some(j)
  {
    assert j <= |s|;
  }

  /** A slice copied from a text without line terminators has none either. */
  lemma SliceIsClean(s: string, from: nat, t: string)
    requires from + |t| <= |s| && s[from..from + |t|] == t
    requires forall k :: 0 <= k < |t| ==> !IsLineTerminator(t[k])
    ensures Clean(s, from, from + |t|)
  {
    forall k | from <= k < from + |t| ensures !IsLineTerminator(s[k]) {
      assert s[k] == t[k - from];
    }
  }

  /** A line-free text followed by the delimiter, with no delimiter inside it, closes right after it. */
  lemma ClosesAfterSpan(s: string, d: string, from: nat, t: string)
    requires from + |t| + |d| <= |s|
    requires s[from..from + |t|] == t && s[from + |t|..from + |t| + |d|] == d
    requires forall k :: from <= k < from + |t| ==> !OccursAt(s, d, k)
    requires forall k :: 0 <= k < |t| ==> !IsLineTerminator(t[k])
    ensures FindClose(s, d, from) == Some(from + |t|)
  {
    SliceIsClean(s, from, t);
    assert OccursAt(s, d, from + |t|);
    FindCloseStopsAt(s, d, from, from + |t|);
  }

  /** Where the opening delimiter has a closing one at `j`, the scan wraps the text between them. */
  lemma DelimitedAtOpening(s: string, d: string, open: string, close: string, i: nat, j: nat)
    requires |d| > 0 && OccursAt(s, d, i) && i + |d| <= |s| && FindClose(s, d, i + |d|) == Some(j)
    ensures Delimited(s, d, open, close, i) == open + s[i + |d|..j] + close + Delimited(s, d, open, close, j + |d|)
  {
  }

  /**
   * A span `d t d` on one line, with no `d` starting inside `t`, is wrapped
   * as `open t close`, and the scan resumes after it.
   */
  lemma WrapsDelimitedSpan(s: string, d: string, open: string, close: string, i: nat, t: string)
    requires |d| > 0 && i + |d| + |t| + |d| <= |s|
    requires s[i..i + |d|] == d && s[i + |d|..i + |d| + |t|] == t && s[i + |d| + |t|..i + |d| + |t| + |d|] == d
    requires forall k :: i + |d| <= k < i + |d| + |t| ==> !OccursAt(s, d, k)
    requires forall k :: 0 <= k < |t| ==> !IsLineTerminator(t[k])
    ensures Delimited(s, d, open, close, i)
      == open + t + close + Delimited(s, d, open, close, i + |d| + |t| + |d|)
  {
    ClosesAfterSpan(s, d, i + |d|, t);
    assert OccursAt(s, d, i);
    WrapAt(s, d, open, close, i, t);
  }

  /** The opening delimiter at `i` closes right after `t`, which is wrapped. */
  lemma WrapAt(s: string, d: string, open: string, close: string, i: nat, t: string)
    requires |d| > 0 && OccursAt(s, d, i) && i + |d| + |t| <= |s| && s[i + |d|..i + |d| + |t|] == t
    requires FindClose(s, d, i + |d|) == Some(i + |d| + |t|)
    ensures Delimited(s, d, open, close, i)
      == open + t + close + Delimited(s, d, open, close, i + |d| + |t| + |d|)
  {
    DelimitedAtOpening(s, d, open, close, i, i + |d| + |t|);
    Rewrap(Delimited(s, d, open, close, i), open, s[i + |d|..i + |d| + |t|], t, close,
      Delimited(s, d, open, close, i + |d| + |t| + |d|));
  }

  /** Replacing the wrapped text by an equal one. */
  lemma Rewrap(x: string, open: string, a: string, t: string, close: string, rest: string)
    requires x == open + a + close + rest && a == t
    ensures x == open + t + close + rest
  {
  }

  /**
   * `LinkAt` is the match a backtracking engine finds: none when no match
   * starts at `i`; otherwise the match whose first group is shortest and,
   * for that group, whose second group is shortest.
   */
  lemma LinkAtIsFirstMatch(s: string, i: nat)
    requires i < |s|
    ensures LinkAt(s, i).None? <==> forall j: nat, k: nat :: !LinkMatch(s, i, j, k)
    ensures LinkAt(s, i).Some? ==> LinkMatch(s, i, LinkAt(s, i).value.0, LinkAt(s, i).value.1)
    ensures LinkAt(s, i).Some? ==> forall j: nat, k: nat :: LinkMatch(s, i, j, k) ==>
      LinkAt(s, i).value.0 <= j && (j == LinkAt(s, i).value.0 ==> LinkAt(s, i).value.1 <= k)
  {
    if s[i] == '[' {
      match FindClose(s, "](", i + 1)
      case None =>
        forall j: nat, k: nat ensures !LinkMatch(s, i, j, k) { }
      case Some(j0) =>
        forall j: nat, k: nat | LinkMatch(s, i, j, k)
          ensures j0 <= j && FindClose(s, ")", j0 + 2).Some? && FindClose(s, ")", j0 + 2).value <= k
        {
          LinkCloseReachable(s, i, j0, j, k);
        }
        if FindClose(s, ")", j0 + 2).Some? {
          var k0 := FindClose(s, ")", j0 + 2).value;
          assert s[k0] == ')' by { assert OccursAt(s, ")", k0); }
          assert LinkMatch(s, i, j0, k0);
        }
    } else {
      forall j: nat, k: nat ensures !LinkMatch(s, i, j, k) { }
    }
  }

  /**
   * The `)` of any match is reachable, on one line, from the first `](`
   * after `[`. So when that `](` has no `)` after it, no later `](` can help:
   * a line terminator lies between them.
   */
  lemma LinkCloseReachable(s: string, i: nat, j0: nat, j: nat, k: nat)
    requires LinkMatch(s, i, j, k) && FindClose(s, "](", i + 1) == Some(j0)
    ensures j0 <= j && FindClose(s, ")", j0 + 2).Some? && FindClose(s, ")", j0 + 2).value <= k
  {
    assert OccursAt(s, ")", k) by { assert s[k..k + 1] == [s[k]]; }
    if j != j0 {
      assert s[j0 + 1] == s[j0..j0 + 2][1] == '(';
      assert s[j] == s[j..j + 2][0] == ']' && s[j + 1] == s[j..j + 2][1] == '(';
    }
    assert Clean(s, j0 + 2, k);
  }

  /** A link text the lazy first group can take whole: one line, no `](` inside. */
  predicate LinkText(t: string) {
    forall k :: 0 <= k < |t| ==> !IsLineTerminator(t[k]) && (k + 1 < |t| ==> !(t[k] == ']' && t[k + 1] == '('))
  }

  /** A url the lazy second group can take whole: one line, no `)` inside. */
  predicate LinkUrl(u: string) {
    forall k :: 0 <= k < |u| ==> !IsLineTerminator(u[k]) && u[k] != ')'
  }

  /**
   * A link `[t](u)` at `i`, whose text holds no `](` and whose url holds no
   * `)`, both on one line, becomes an anchor, and the scan resumes after it.
   */
  lemma WrapsLink(s: string, i: nat, t: string, u: string)
    requires i + |t| + |u| + 4 <= |s| && s[i..i + |t| + |u| + 4] == "[" + t + "](" + u + ")"
    requires LinkText(t) && LinkUrl(u)
    ensures Links(s, i) == Anchor(u, t) + Links(s, i + |t| + |u| + 4)
  {
    LinkPieces(s, i, t, u);
    LinkFoundAt(s, i, t, u);
    AnchorAt(s, i, t, u);
  }

  /** At a link `[t](u)` the groups end right after `t` and right after `u`. */
  lemma LinkFoundAt(s: string, i: nat, t: string, u: string)
    requires i + |t| + |u| + 4 <= |s| && s[i] == '['
    requires s[i + 1..i + 1 + |t|] == t && s[i + 1 + |t|..i + 3 + |t|] == "]("
    requires s[i + 3 + |t|..i + 3 + |t| + |u|] == u && s[i + 3 + |t| + |u|] == ')'
    requires LinkText(t) && LinkUrl(u)
    ensures LinkAt(s, i) == Some((i + 1 + |t|, i + 3 + |t| + |u|))
  {
    LinkTextCloses(s, i + 1, t);
    ClosesAfterUrl(s, i + 3 + |t|, u);
    LinkAtFound(s, i, i + 1 + |t|, i + 3 + |t| + |u|);
  }

  /** Where the groups end right after `t` and `u`, the anchor wraps exactly them. */
  lemma AnchorAt(s: string, i: nat, t: string, u: string)
    requires i + |t| + |u| + 4 <= |s|
    requires LinkAt(s, i) == Some((i + 1 + |t|, i + 3 + |t| + |u|))
    requires s[i + 1..i + 1 + |t|] == t && s[i + 3 + |t|..i + 3 + |t| + |u|] == u
    ensures Links(s, i) == Anchor(u, t) + Links(s, i + |t| + |u| + 4)
  {
    var j, k := i + 1 + |t|, i + 3 + |t| + |u|;
    LinksAtMatch(s, i, j, k);
    assert j + 2 == i + 3 + |t| && k + 1 == i + |t| + |u| + 4;
    AnchorRewrap(Links(s, i), s[j + 2..k], u, s[i + 1..j], t, Links(s, k + 1));
  }

  /** Replacing the url and the text of an anchor by equal ones. */
  lemma AnchorRewrap(x: string, a: string, u: string, b: string, t: string, rest: string)
    requires x == Anchor(a, b) + rest && a == u && b == t
    ensures x == Anchor(u, t) + rest
  {
  }

  /** `LinkAt` pairs the first `](` after `[` with the first `)` after it. */
  lemma LinkAtFound(s: string, i: nat, j: nat, k: nat)
    requires i < |s| && s[i] == '[' && FindClose(s, "](", i + 1) == Some(j) && FindClose(s, ")", j + 2) == Some(k)
    ensures LinkAt(s, i) == Some((j, k))
  {
  }

  /** Where `LinkAt` finds `(j, k)`, the link pass emits the anchor and resumes after `)`. */
  lemma LinksAtMatch(s: string, i: nat, j: nat, k: nat)
    requires i < |s| && LinkAt(s, i) == Some((j, k))
    ensures Links(s, i) == Anchor(s[j + 2..k], s[i + 1..j]) + Links(s, k + 1)
  {
    assert Links(s, i) == LinkStep(s, i, Some((j, k)));
    AnchorStep(s, i, j, k);
  }

  /** The step taken at a match emits the anchor and resumes after `)`. */
  lemma AnchorStep(s: string, i: nat, j: nat, k: nat)
    requires i < |s| && i + 1 <= j && j + 2 <= k < |s|
    ensures LinkStep(s, i, Some((j, k))) == Anchor(s[j + 2..k], s[i + 1..j]) + Links(s, k + 1)
  {
  }

  /** The pieces of a link written out at `i`. */
  lemma LinkPieces(s: string, i: nat, t: string, u: string)
    requires i + |t| + |u| + 4 <= |s| && s[i..i + |t| + |u| + 4] == "[" + t + "](" + u + ")"
    ensures s[i] == '[' && s[i + 1..i + 1 + |t|] == t && s[i + 1 + |t|..i + 3 + |t|] == "]("
    ensures s[i + 3 + |t|..i + 3 + |t| + |u|] == u && s[i + 3 + |t| + |u|] == ')'
  {
    var n := |t| + |u| + 4;
    var w := s[i..i + n];
    var a, b, c := "[" + t, "[" + t + "](", "[" + t + "](" + u;
    assert s[i] == w[0] == a[0];
    InnerSlice(s, i, n, 1, 1 + |t|);
    LeftSlice(c, ")", 1, 1 + |t|);
    LeftSlice(b, u, 1, 1 + |t|);
    LeftSlice(a, "](", 1, 1 + |t|);
    InnerSlice(s, i, n, 1 + |t|, 3 + |t|);
    LeftSlice(c, ")", 1 + |t|, 3 + |t|);
    LeftSlice(b, u, 1 + |t|, 3 + |t|);
    InnerSlice(s, i, n, 3 + |t|, 3 + |t| + |u|);
    LeftSlice(c, ")", 3 + |t|, 3 + |t| + |u|);
    assert s[i + 3 + |t| + |u|] == w[3 + |t| + |u|];
  }

  /** A slice inside the left operand of a concatenation. */
  lemma LeftSlice(x: string, y: string, lo: nat, hi: nat)
    requires lo <= hi <= |x|
    ensures (x + y)[lo..hi] == x[lo..hi]
  {
  }

  /** A slice of a slice. */
  lemma InnerSlice(s: string, i: nat, n: nat, lo: nat, hi: nat)
    requires i + n <= |s| && lo <= hi <= n
    ensures s[i..i + n][lo..hi] == s[i + lo..i + hi]
  {
    var x, y := s[i..i + n][lo..hi], s[i + lo..i + hi];
    forall m | 0 <= m < |x| ensures x[m] == y[m] { }
  }

  /** A link text followed by `](` closes the first group right after it. */
  lemma LinkTextCloses(s: string, from: nat, t: string)
    requires from + |t| + 2 <= |s| && s[from..from + |t|] == t && s[from + |t|..from + |t| + 2] == "]("
    requires LinkText(t)
    ensures FindClose(s, "](", from) == Some(from + |t|)
  {
    forall k | from <= k < from + |t| ensures !OccursAt(s, "](", k) {
      assert s[k] == t[k - from];
      if k + 1 < from + |t| {
        assert s[k + 1] == t[k + 1 - from];
      } else {
        assert s[k + 1] == s[from + |t|..from + |t| + 2][0] == ']';
      }
      assert OccursAt(s, "](", k) ==> s[k] == ']' && s[k + 1] == '(' by {
        if OccursAt(s, "](", k) {
          assert s[k..k + 2][0] == s[k] && s[k..k + 2][1] == s[k + 1];
        }
      }
    }
    ClosesAfterSpan(s, "](", from, t);
  }

  /** A line-free text without `)`, followed by `)`, closes the second group right after it. */
  lemma ClosesAfterUrl(s: string, from: nat, u: string)
    requires from + |u| < |s| && s[from..from + |u|] == u && s[from + |u|] == ')'
    requires LinkUrl(u)
    ensures FindClose(s, ")", from) == Some(from + |u|)
  {
    forall k | from <= k < from + |u| ensures !OccursAt(s, ")", k) {
      assert s[k..k + 1] == [s[k]] && s[k] == u[k - from];
    }
    assert s[from + |u|..from + |u| + 1] == ")";
    ClosesAfterSpan(s, ")", from, u);
  }

  /** Text no pass of the chunk formatter touches: no `*`, backtick, `[` or line terminator. */
  predicate Plain(t: string) {
    forall k :: 0 <= k < |t| ==> t[k] != '*' && t[k] != '`' && t[k] != '[' && !IsLineTerminator(t[k])
  }

  /** Where no match can start, the scan copies one character and moves on. */
  lemma DelimitedCopies(s: string, d: string, open: string, close: string, i: nat)
    requires |d| > 0 && i < |s| && !(OccursAt(s, d, i) && FindClose(s, d, i + |d|).Some?)
    ensures Delimited(s, d, open, close, i) == [s[i]] + Delimited(s, d, open, close, i + 1)
  {
  }

  /** A position holding another character than the pattern's first is no occurrence. */
  lemma NotAtOtherChar(s: string, pat: string, i: nat)
    requires |pat| > 0 && (i < |s| ==> s[i] != pat[0])
    ensures !OccursAt(s, pat, i)
  {
    if i + |pat| <= |s| {
      assert s[i..i + |pat|][0] == s[i];
    }
  }

  /** A position followed by another character than the pattern's second is no occurrence. */
  lemma NotAtOtherSecond(s: string, pat: string, i: nat)
    requires |pat| > 1 && (i + 1 < |s| ==> s[i + 1] != pat[1])
    ensures !OccursAt(s, pat, i)
  {
    if i + |pat| <= |s| {
      assert s[i..i + |pat|][1] == s[i + 1];
    }
  }

  /** Putting one character back in front of the rest of a slice. */
  lemma ConsAppend(c: char, x: string, y: string, z: string)
    requires x == [c] + y
    ensures [c] + (y + z) == x + z
  {
  }

  /** A stretch without the delimiter's first character is copied as it is. */
  lemma {:induction false} DelimitedSkips(s: string, d: string, open: string, close: string, i: nat, m: nat)
    requires |d| > 0 && i <= m <= |s|
    requires forall k :: i <= k < m ==> s[k] != d[0]
    decreases m - i
    ensures Delimited(s, d, open, close, i) == s[i..m] + Delimited(s, d, open, close, m)
  {
    if i < m {
      NotAtOtherChar(s, d, i);
      DelimitedCopies(s, d, open, close, i);
      DelimitedSkips(s, d, open, close, i + 1, m);
      assert s[i..m] == [s[i]] + s[i + 1..m];
      ConsAppend(s[i], s[i..m], s[i + 1..m], Delimited(s, d, open, close, m));
    }
  }

  /** Plain text between two `**` becomes a `<strong>` element. */
  lemma BoldSpan(t: string)
    requires Plain(t)
    ensures Bold("**" + t + "**") == "<strong>" + t + "</strong>"
  {
    var s := "**" + t + "**";
    assert s[0..2] == "**" && s[2..2 + |t|] == t && s[2 + |t|..4 + |t|] == "**";
    forall k | 2 <= k < 2 + |t| ensures !OccursAt(s, "**", k) {
      assert s[k..k + 2][0] == s[k] == t[k - 2];
    }
    WrapsDelimitedSpan(s, "**", "<strong>", "</strong>", 0, t);
    assert Delimited(s, "**", "<strong>", "</strong>", |s|) == [];
  }

  /** The passes after italic leave text with no backtick, `[` or `\n` alone. */
  lemma LaterPassesUnchanged(x: string)
    requires Lacks(x, '`', 0) && Lacks(x, '[', 0) && Lacks(x, '\n', 0)
    ensures ReplaceAll(Paragraphs(Links(Code(x), 0)), "\n", "", 0) == x
  {
    DelimitedIdentity(x, "`", "<code>", "</code>", 0);
    LinksIdentity(x, 0);
    ReplaceAllIdentity(x, "\n\n", "<br><br>", 0);
    ReplaceAllIdentity(x, "\n", "", 0);
  }

  /** Wrapping plain text in tags without markup characters keeps it free of them. */
  lemma TaggedIsQuiet(open: string, t: string, close: string)
    requires Plain(t)
    requires forall k :: 0 <= k < |open| ==> open[k] !in "*`[\n"
    requires forall k :: 0 <= k < |close| ==> close[k] !in "*`[\n"
    ensures var x := open + t + close;
      Lacks(x, '*', 0) && Lacks(x, '`', 0) && Lacks(x, '[', 0) && Lacks(x, '\n', 0)
  {
    var x := open + t + close;
    forall k | 0 <= k < |x| ensures x[k] !in "*`[\n" {
      if k < |open| {
        assert x[k] == open[k];
      } else if k < |open| + |t| {
        assert x[k] == t[k - |open|];
      } else {
        assert x[k] == close[k - |open| - |t|];
      }
    }
  }

  /** A chunk holding plain text between two `**` comes out as one `<strong>` element. */
  lemma BoldChunk(t: string)
    requires Plain(t)
    ensures FormatChunk("**" + t + "**") == "<strong>" + t + "</strong>"
  {
    BoldSpan(t);
    var b := "<strong>" + t + "</strong>";
    TaggedIsQuiet("<strong>", t, "</strong>");
    DelimitedIdentity(b, "*", "<em>", "</em>", 0);
    LaterPassesUnchanged(b);
  }

  /** No match of `d` starts at or after `from`: the lazy group finds no close. */
  lemma NoCloseAfter(s: string, d: string, from: nat)
    requires from <= |s| && forall k :: from <= k ==> !OccursAt(s, d, k)
    ensures FindClose(s, d, from) == None
  {
  }

  /** Plain text after a prefix holds no star. */
  lemma PlainAfter(p: string, a: string)
    requires Plain(a)
    ensures forall k :: |p| <= k < |p + a| ==> (p + a)[k] != '*'
  {
    forall k | |p| <= k < |p + a| ensures (p + a)[k] != '*' {
      assert (p + a)[k] == a[k - |p|];
    }
  }

  /** In `**a` the first `**` finds no close and the second star starts no match. */
  lemma OpeningScan(a: string)
    requires Plain(a)
    ensures FindClose("**" + a, "**", 2) == None && !OccursAt("**" + a, "**", 1)
    ensures forall k :: 2 <= k < |"**" + a| ==> ("**" + a)[k] != '*'
  {
    var s := "**" + a;
    PlainAfter("**", a);
    forall k | 2 <= k ensures !OccursAt(s, "**", k) {
      NotAtOtherChar(s, "**", k);
    }
    NoCloseAfter(s, "**", 2);
    NotAtOtherSecond(s, "**", 1);
  }

  /** The bold pass copies `**a` character by character. */
  lemma OpeningCopied(a: string)
    requires Plain(a)
    ensures var s := "**" + a;
      Bold(s) == [s[0]] + ([s[1]] + (s[2..|s|] + Delimited(s, "**", "<strong>", "</strong>", |s|)))
  {
    var s := "**" + a;
    OpeningScan(a);
    DelimitedCopies(s, "**", "<strong>", "</strong>", 0);
    DelimitedCopies(s, "**", "<strong>", "</strong>", 1);
    DelimitedSkips(s, "**", "<strong>", "</strong>", 2, |s|);
  }

  /** An unclosed `**` is not bold. */
  lemma OpeningNotBold(a: string)
    requires Plain(a)
    ensures Bold("**" + a) == "**" + a
  {
    var s := "**" + a;
    OpeningCopied(a);
    assert Delimited(s, "**", "<strong>", "</strong>", |s|) == [];
    assert s == [s[0]] + ([s[1]] + (s[2..|s|] + []));
  }

  /** The two stars of an unclosed `**` make an empty italic. */
  lemma OpeningItalic(a: string)
    requires Plain(a)
    ensures Italic("**" + a) == "<em></em>" + a
  {
    var s := "**" + a;
    assert Lacks(s, '*', 2) by {
      forall k | 2 <= k < |s| ensures s[k] != '*' {
        assert s[k] == a[k - 2];
      }
    }
    assert s[0..1] == "*" && s[1..2] == "*";
    FindCloseStopsAt(s, "*", 1, 1);
    DelimitedAtOpening(s, "*", "<em>", "</em>", 0, 1);
    DelimitedIdentity(s, "*", "<em>", "</em>", 2);
    assert s[2..] == a;
  }

  /** A chunk that opens bold markup without closing it: the `**` is read as an empty italic. */
  lemma OpeningHalf(a: string)
    requires Plain(a)
    ensures FormatChunk("**" + a) == "<em></em>" + a
  {
    OpeningNotBold(a);
    OpeningItalic(a);
    TaggedIsQuiet("<em></em>", a, "");
    assert "<em></em>" + a + "" == "<em></em>" + a;
    LaterPassesUnchanged("<em></em>" + a);
  }

  /** A `**` that closes nothing is not bold. */
  lemma ClosingNotBold(b: string)
    requires Plain(b)
    ensures Bold(b + "**") == b + "**"
  {
    var s := b + "**";
    assert s[..|b|] == b && s[|b|] == '*' && s[|b| + 1] == '*';
    DelimitedSkips(s, "**", "<strong>", "</strong>", 0, |b|);
    DelimitedCopies(s, "**", "<strong>", "</strong>", |b|);
    DelimitedCopies(s, "**", "<strong>", "</strong>", |b| + 1);
    assert s == s[0..|b|] + ([s[|b|]] + ([s[|b| + 1]] + []));
  }

  /** An empty element. */
  lemma EmptyWrap(open: string, a: string, close: string, rest: string)
    requires a == [] && rest == []
    ensures open + a + close + rest == open + close
  {
  }

  lemma EmptyItalic()
    ensures "<em>" + "</em>" == "<em></em>"
  {
  }

  /** Both ends of `**` hold a star. */
  lemma StarsAtEnd(b: string)
    ensures OccursAt(b + "**", "*", |b|) && OccursAt(b + "**", "*", |b| + 1)
  {
    var s := b + "**";
    assert s[|b|..|b| + 1] == [s[|b|]] && s[|b| + 1..|b| + 2] == [s[|b| + 1]];
  }

  /** The `**` at the end of `b**` becomes an empty italic. */
  lemma ClosingStars(b: string)
    ensures Delimited(b + "**", "*", "<em>", "</em>", |b|) == "<em></em>"
  {
    var s := b + "**";
    StarsAtEnd(b);
    FindCloseStopsAt(s, "*", |b| + 1, |b| + 1);
    DelimitedAtOpening(s, "*", "<em>", "</em>", |b|, |b| + 1);
    EmptyWrap("<em>", s[|b| + 1..|b| + 1], "</em>", Delimited(s, "*", "<em>", "</em>", |b| + 1 + 1));
    EmptyItalic();
  }

  /** The two stars of a `**` that closes nothing make an empty italic. */
  lemma ClosingItalic(b: string)
    requires Plain(b)
    ensures Italic(b + "**") == b + "<em></em>"
  {
    var s := b + "**";
    assert forall k :: 0 <= k < |b| ==> s[k] == b[k];
    DelimitedSkips(s, "*", "<em>", "</em>", 0, |b|);
    ClosingStars(b);
    assert s[0..|b|] == b;
  }

  /** A chunk that closes bold markup it did not open: the `**` is read as an empty italic. */
  lemma ClosingHalf(b: string)
    requires Plain(b)
    ensures FormatChunk(b + "**") == b + "<em></em>"
  {
    ClosingNotBold(b);
    ClosingItalic(b);
    TaggedIsQuiet("", b, "<em></em>");
    assert "" + b + "<em></em>" == b + "<em></em>";
    LaterPassesUnchanged(b + "<em></em>");
  }

  /**
   * Each chunk is formatted on its own, so bold markup split across two
   * chunks is not converted: each half's `**` is read as an empty italic,
   * where the same text in one chunk is bold.
   */
  lemma SplitMarkupIsNotBold(a: string, b: string)
    requires Plain(a) && Plain(b)
    ensures FormatChunk("**" + (a + b) + "**") == "<strong>" + (a + b) + "</strong>"
    ensures FormatChunk("**" + a) + FormatChunk(b + "**") == ("<em></em>" + a) + (b + "<em></em>")
    ensures FormatChunk("**" + a) + FormatChunk(b + "**") != FormatChunk("**" + (a + b) + "**")
  {
    assert Plain(a + b) by {
      forall k | 0 <= k < |a + b| ensures (a + b)[k] == if k < |a| then a[k] else b[k - |a|] {
      }
    }
    BoldChunk(a + b);
    OpeningHalf(a);
    ClosingHalf(b);
  }
}

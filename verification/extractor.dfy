/**
 * `getPageContent` of src/background.js: choose a content root, prepend a
 * title/URL header, run the two whitespace-collapsing passes, and cap the
 * length at 10,000 characters.
 */
module Extractor {
  import opened JsString
  import opened Serializer

  const MaxLength: nat := 10000
  const TruncationMarker: string := "\n\n...(content truncated)..."

  function Repeat(c: char, n: nat): (r: string)
    ensures |r| == n
  {
    seq(n, _ => c)
  }

  /** `m` consecutive copies of `c` start at index `i` of `s`. */
  predicate RunAt(s: string, c: char, m: nat, i: nat) {
    i + m <= |s| && s[i..i + m] == Repeat(c, m)
  }

  /** No `m` consecutive copies of `c` occur anywhere in `s`. */
  predicate NoRun(s: string, c: char, m: nat) {
    forall i :: 0 <= i < |s| ==> !RunAt(s, c, m, i)
  }

  /** The number of copies of `c` that `s` starts with. */
  function RunLength(s: string, c: char): (n: nat)
    ensures n <= |s| && s[..n] == Repeat(c, n)
    ensures n == |s| || s[n] != c
  {
    if s == [] || s[0] != c then 0
    else
      var n := RunLength(s[1..], c);
      assert s[..n + 1] == [c] + s[1..][..n];
      n + 1
  }

  /**
   * `s.replace(/c{m,}/g, c repeated m - 1 times)`: scanning from the left,
   * every maximal run of `m` or more copies of `c` becomes `m - 1` copies.
   * (Greedy matching consumes a whole run; a shorter run never matches, at
   * its start or inside it.) The first character never changes.
   */
  function CollapseRuns(s: string, c: char, m: nat): (r: string)
    requires m >= 2
    decreases |s|
    ensures |r| <= |s|
    ensures r == [] <==> s == []
    ensures s != [] ==> r[0] == s[0]
  {
    if s == [] then []
    else if s[0] != c then [s[0]] + CollapseRuns(s[1..], c, m)
    else
      var k := RunLength(s, c);
      (if k >= m then Repeat(c, m - 1) else s[..k]) + CollapseRuns(s[k..], c, m)
  }

  /** The two clean-up passes: `/\n{3,}/g` to two newlines, then `/ {2,}/g` to one space. */
  function Collapse(s: string): (r: string)
    ensures |r| <= |s|
  {
    CollapseRuns(CollapseRuns(s, '\n', 3), ' ', 2)
  }

  /** The 10,000-character cap with its fixed marker. */
  function Truncate(s: string): string {
    if |s| > MaxLength then s[..MaxLength] + TruncationMarker else s
  }

  /** `# {title}\n\nURL: {url}\n\n---\n\n` */
  function Header(title: string, url: string): string {
    "# " + title + "\n\nURL: " + url + "\n\n---\n\n"
  }

  /** What `getPageContent` reads from the page. */
  datatype Page = Page(
    title: string,          // document.title
    url: string,            // window.location.href
    body: Node,             // document.body
    firstMatch: Option<Node> // the first match of "article, main, #content, #main, .content, .main"
  )

  /** The element whose children are serialized: the first selector match, else the body. */
  function ContentRoot(p: Page): Node {
    p.firstMatch.GetOr(p.body)
  }

  /**
   * `getPageContent()`: the header and the serialized content root, through
   * both clean-up passes and the cap. By `TruncateBound` it is never longer
   * than 10,027 characters.
   */
  method GetPageContent(p: Page) returns (markdown: string)
    ensures markdown == Truncate(Collapse(Header(p.title, p.url) + ChildrenMarkdown(ChildNodes(ContentRoot(p)))))
    ensures |markdown| <= MaxLength + |TruncationMarker|
  {
    var mainContent := p.body;
    if p.firstMatch.Some? {
      mainContent := p.firstMatch.value;
    }
    markdown := Header(p.title, p.url);
    var body := HtmlToMarkdown(mainContent);
    markdown := markdown + body;
    markdown := CollapseRuns(markdown, '\n', 3);
    markdown := CollapseRuns(markdown, ' ', 2);
    if |markdown| > MaxLength {
      markdown := markdown[..MaxLength] + TruncationMarker;
    }
  }
}

/** What the clean-up passes guarantee. */
module ExtractorFacts {
  import opened Extractor

  lemma NoRunSuffix(s: string, c: char, m: nat, k: nat)
    requires NoRun(s, c, m) && k <= |s|
    ensures NoRun(s[k..], c, m)
  {
    forall i | 0 <= i < |s[k..]| ensures !RunAt(s[k..], c, m, i) {
      if i + m <= |s[k..]| {
        assert !RunAt(s, c, m, k + i);
        assert s[k..][i..i + m] == s[k + i..k + i + m];
      }
    }
  }

  /** After one pass no run of `m` copies of `c` is left. */
  lemma {:induction false} CollapseRunsLeavesNoRun(s: string, c: char, m: nat)
    requires m >= 2
    ensures NoRun(CollapseRuns(s, c, m), c, m)
    decreases |s|
  {
    if s == [] {
    } else if s[0] != c {
      CollapseRunsLeavesNoRun(s[1..], c, m);
      OtherCharKeepsNoRun(s[0], CollapseRuns(s[1..], c, m), c, m);
    } else {
      var k := RunLength(s, c);
      CollapseRunsLeavesNoRun(s[k..], c, m);
      var j := if k >= m then m - 1 else k;
      assert (if k >= m then Repeat(c, m - 1) else s[..k]) == Repeat(c, j);
      ShortRunKeepsNoRun(j, CollapseRuns(s[k..], c, m), c, m);
    }
  }

  /** A character other than `c` in front cannot start a run of `c`. */
  lemma OtherCharKeepsNoRun(x: char, t: string, c: char, m: nat)
    requires m >= 1 && x != c && NoRun(t, c, m)
    ensures NoRun([x] + t, c, m)
  {
    if m <= |[x] + t| {
      assert ([x] + t)[0..m][0] == x;
      assert Repeat(c, m)[0] == c;
    }
    ConsKeepsNoRun(x, t, c, m);
  }

  /** A character in front that starts no run adds none further on. */
  lemma ConsKeepsNoRun(x: char, t: string, c: char, m: nat)
    requires NoRun(t, c, m) && !RunAt([x] + t, c, m, 0)
    ensures NoRun([x] + t, c, m)
  {
    var r := [x] + t;
    forall i: nat | 0 < i && i + m <= |r| ensures !RunAt(r, c, m, i) {
      assert r[i..i + m] == t[i - 1..i - 1 + m];
      assert !RunAt(t, c, m, i - 1);
    }
  }

  /** Fewer than `m` copies of `c` in front of a string that does not start with `c` cannot start a run. */
  lemma ShortRunKeepsNoRun(j: nat, t: string, c: char, m: nat)
    requires j < m && NoRun(t, c, m) && (t == [] || t[0] != c)
    ensures NoRun(Repeat(c, j) + t, c, m)
  {
    var r := Repeat(c, j) + t;
    forall i: nat | i + m <= |r| ensures !RunAt(r, c, m, i) {
      if i < j {
        assert r[j] == t[0];
        assert r[i..i + m][j - i] == r[j];
        assert Repeat(c, m)[j - i] == c;
      } else {
        assert r[i..i + m] == t[i - j..i - j + m];
        assert !RunAt(t, c, m, i - j);
      }
    }
  }

  /** A string with no run of `m` copies of `c` is left unchanged by the pass. */
  lemma {:induction false} CollapseRunsFixesNoRun(s: string, c: char, m: nat)
    requires m >= 2 && NoRun(s, c, m)
    ensures CollapseRuns(s, c, m) == s
    decreases |s|
  {
    if s == [] {
    } else if s[0] != c {
      NoRunSuffix(s, c, m, 1);
      CollapseRunsFixesNoRun(s[1..], c, m);
      CollapseRunsStepOther(s, c, m);
    } else {
      FrontRunIsShort(s, c, m);
      NoRunSuffix(s, c, m, RunLength(s, c));
      CollapseRunsFixesNoRun(s[RunLength(s, c)..], c, m);
      CollapseRunsStepShortRun(s, c, m);
    }
  }

  /** A string that does not start with `c` keeps its first character and collapses the rest. */
  lemma CollapseRunsStepOther(s: string, c: char, m: nat)
    requires m >= 2 && s != [] && s[0] != c && CollapseRuns(s[1..], c, m) == s[1..]
    ensures CollapseRuns(s, c, m) == s
  {
    assert s == [s[0]] + s[1..];
  }

  /** A front run shorter than `m` is kept and the rest collapsed. */
  lemma CollapseRunsStepShortRun(s: string, c: char, m: nat)
    requires m >= 2 && s != [] && s[0] == c && RunLength(s, c) < m
    requires CollapseRuns(s[RunLength(s, c)..], c, m) == s[RunLength(s, c)..]
    ensures CollapseRuns(s, c, m) == s
  {
    assert s == s[..RunLength(s, c)] + s[RunLength(s, c)..];
  }

  /** A window of `m` characters at the front of `s` is a run of `d` exactly when `s` starts with `m` copies of `d`. */
  lemma FrontWindow(s: string, d: char, m: nat)
    requires m <= |s|
    ensures s[..m] == Repeat(d, m) <==> RunLength(s, d) >= m
  {
    var n := RunLength(s, d);
    if n >= m {
      assert s[..m] == s[..n][..m];
    } else {
      assert s[..m][n] == s[n];
    }
  }

  /** Without a run of `m` copies of `c`, the string starts with fewer than `m` of them. */
  lemma FrontRunIsShort(s: string, c: char, m: nat)
    requires m >= 1 && NoRun(s, c, m)
    ensures RunLength(s, c) < m
  {
    if m <= |s| {
      FrontWindow(s, c, m);
      assert s[0..m] == s[..m];
      assert !RunAt(s, c, m, 0);
    }
  }

  /** Collapsing runs of `c` does not change how many copies of another character `d` the string starts with. */
  lemma {:induction false} CollapseRunsKeepsOtherRunLength(s: string, c: char, m: nat, d: char)
    requires m >= 2 && c != d
    ensures RunLength(CollapseRuns(s, c, m), d) == RunLength(s, d)
    decreases |s|
  {
    var r := CollapseRuns(s, c, m);
    if s != [] && s[0] == d {
      var r' := CollapseRuns(s[1..], c, m);
      assert r == [s[0]] + r';
      assert r[1..] == r';
      CollapseRunsKeepsOtherRunLength(s[1..], c, m, d);
    }
  }

  lemma CollapseRunsKeepsFrontNoRun(s: string, c: char, m: nat, d: char, n: nat)
    requires m >= 2 && c != d && n >= 1 && NoRun(s, d, n)
    ensures !RunAt(CollapseRuns(s, c, m), d, n, 0)
  {
    var r := CollapseRuns(s, c, m);
    CollapseRunsKeepsOtherRunLength(s, c, m, d);
    FrontRunIsShort(s, d, n);
    if n <= |r| {
      FrontWindow(r, d, n);
      assert r[..n] == r[0..0 + n];
    }
  }

  /** Collapsing runs of `c` creates no run of another character `d`. */
  lemma {:induction false} CollapseRunsKeepsOtherNoRun(s: string, c: char, m: nat, d: char, n: nat)
    requires m >= 2 && c != d && n >= 1 && NoRun(s, d, n)
    ensures NoRun(CollapseRuns(s, c, m), d, n)
    decreases |s|
  {
    if s == [] {
    } else if s[0] != c {
      NoRunSuffix(s, d, n, 1);
      CollapseRunsKeepsOtherNoRun(s[1..], c, m, d, n);
      CollapseRunsKeepsFrontNoRun(s, c, m, d, n);
      assert CollapseRuns(s, c, m) == [s[0]] + CollapseRuns(s[1..], c, m);
      ConsKeepsNoRun(s[0], CollapseRuns(s[1..], c, m), d, n);
    } else {
      var k := RunLength(s, c);
      NoRunSuffix(s, d, n, k);
      CollapseRunsKeepsOtherNoRun(s[k..], c, m, d, n);
      var j := if k >= m then m - 1 else k;
      assert (if k >= m then Repeat(c, m - 1) else s[..k]) == Repeat(c, j);
      OtherRunKeepsNoRun(j, CollapseRuns(s[k..], c, m), c, d, n);
    }
  }

  /** Copies of `c` in front create no run of another character `d`. */
  lemma OtherRunKeepsNoRun(j: nat, t: string, c: char, d: char, n: nat)
    requires c != d && n >= 1 && NoRun(t, d, n)
    ensures NoRun(Repeat(c, j) + t, d, n)
  {
    var r := Repeat(c, j) + t;
    forall i: nat | i + n <= |r| ensures !RunAt(r, d, n, i) {
      if i < j {
        assert r[i..i + n][0] == r[i] == c;
        assert Repeat(d, n)[0] == d;
      } else {
        assert r[i..i + n] == t[i - j..i - j + n];
        assert !RunAt(t, d, n, i - j);
      }
    }
  }

  /**
   * After the two passes the text has no run of three newlines and no run of
   * two spaces, and running the passes again changes nothing.
   */
  lemma CollapseIsNormalAndIdempotent(s: string)
    ensures NoRun(Collapse(s), '\n', 3) && NoRun(Collapse(s), ' ', 2)
    ensures Collapse(Collapse(s)) == Collapse(s)
    ensures |Collapse(s)| <= |s|
  {
    var once := CollapseRuns(s, '\n', 3);
    var r := Collapse(s);
    CollapseRunsLeavesNoRun(once, ' ', 2);
    CollapseRunsLeavesNoRun(s, '\n', 3);
    CollapseRunsKeepsOtherNoRun(once, ' ', 2, '\n', 3);
    CollapseRunsFixesNoRun(r, '\n', 3);
    CollapseRunsFixesNoRun(r, ' ', 2);
  }

  /**
   * The cap: a result over 10,000 characters is cut to its first 10,000 and
   * marked, for a total of exactly 10,027; anything shorter is returned as is.
   */
  lemma TruncateBound(s: string)
    ensures |s| <= MaxLength ==> Truncate(s) == s
    ensures |s| > MaxLength ==>
      && |Truncate(s)| == MaxLength + |TruncationMarker| == 10027
      && Truncate(s)[..MaxLength] == s[..MaxLength]
      && Truncate(s)[MaxLength..] == TruncationMarker
  {
  }
}

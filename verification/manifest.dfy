/**
 * scripts/prepare-manifest.js: read manifest.json, drop the first "dist/"
 * from the paths the packaged extension refers to, and write the result to
 * dist/manifest.json, exiting with code 1 on any failure.
 */
module ManifestPrep {
  import opened JsString

  const Dist: string := "dist/"

  /** `s.replace(pat, "")` with a string pattern: only the first occurrence goes. */
  function RemoveFirst(s: string, pat: string): string {
    match IndexOf(s, pat, 0)
    case None => s
    case Some(i) => s[..i] + s[i + |pat|..]
  }

  /** `action.default_icon`: a table from sizes to paths, or a single path. */
  datatype Icon = Sizes(table: map<string, string>) | Path(path: string)

  /** The fields of the manifest the script reads; everything else is `other`. */
  datatype ManifestJson = ManifestJson(
    serviceWorker: Option<string>,              // background.service_worker
    defaultPopup: Option<string>,               // action.default_popup
    defaultIcon: Option<Icon>,                  // action.default_icon
    icons: Option<map<string, string>>,         // icons
    other: map<string, string>)                 // every other field, as serialised JSON

  /** Every value of an icon table with its first "dist/" removed. */
  function StripValues(m: map<string, string>): (r: map<string, string>)
    ensures r.Keys == m.Keys
  {
    map k | k in m :: RemoveFirst(m[k], Dist)
  }

  /** A path field is rewritten only when it is present and truthy (a non-empty string). */
  function StripPath(path: Option<string>): (r: Option<string>)
    ensures r.Some? <==> path.Some?
  {
    if path.Some? && path.value != "" then Some(RemoveFirst(path.value, Dist)) else path
  }

  /**
   * A non-empty string passes the `default_icon` guard, and the first
   * `default_icon[size] = ...` assigns to an index of a string, which throws
   * a TypeError in the module's strict mode.
   */
  predicate IconAssignmentThrows(j: ManifestJson) {
    j.defaultIcon.Some? && j.defaultIcon.value.Path? && j.defaultIcon.value.path != ""
  }

  /**
   * The manifest object once the rewrite block has run, or has thrown: the
   * two paths are rewritten first, and a throwing icon stops the block
   * before the icon tables are touched.
   */
  function Rewritten(j: ManifestJson): ManifestJson {
    if IconAssignmentThrows(j) then
      j.(serviceWorker := StripPath(j.serviceWorker), defaultPopup := StripPath(j.defaultPopup))
    else
      ManifestJson(
        StripPath(j.serviceWorker),
        StripPath(j.defaultPopup),
        if j.defaultIcon.Some? && j.defaultIcon.value.Sizes? then Some(Sizes(StripValues(j.defaultIcon.value.table)))
        else j.defaultIcon,
        if j.icons.Some? then Some(StripValues(j.icons.value)) else None,
        j.other)
  }

  /** What reading and parsing manifest.json gives. */
  datatype Input = ReadFailed | ParseFailed | Parsed(json: ManifestJson)

  /** What the script ends with: the manifest written, or `process.exit(code)`. */
  datatype Outcome = Written(json: ManifestJson) | Exit(code: int)

  function Prepared(input: Input, writeOk: bool): Outcome {
    if input.Parsed? && !IconAssignmentThrows(input.json) && writeOk then Written(Rewritten(input.json))
    else Exit(1)
  }

  /** The `Object.keys(table).forEach(...)` rewrite of an icon table. */
  method StripEach(table: map<string, string>) returns (r: map<string, string>)
    ensures r == StripValues(table)
  {
    r := table;
    var keys := table.Keys;
    while keys != {}
      invariant keys <= table.Keys && r.Keys == table.Keys
      invariant forall k :: k in table && k !in keys ==> r[k] == RemoveFirst(table[k], Dist)
      invariant forall k :: k in keys ==> r[k] == table[k]
      decreases keys
    {
      var k :| k in keys;
      r := r[k := RemoveFirst(r[k], Dist)];
      keys := keys - {k};
    }
    assert r == StripValues(table);
  }

  /** The parsed manifest object, whose fields the script assigns in place. */
  class Manifest {
    var serviceWorker: Option<string>
    var defaultPopup: Option<string>
    var defaultIcon: Option<Icon>
    var icons: Option<map<string, string>>
    var other: map<string, string>

    function State(): ManifestJson
      reads this
    {
      ManifestJson(serviceWorker, defaultPopup, defaultIcon, icons, other)
    }

    constructor (j: ManifestJson)
      ensures State() == j
    {
      serviceWorker := j.serviceWorker;
      defaultPopup := j.defaultPopup;
      defaultIcon := j.defaultIcon;
      icons := j.icons;
      other := j.other;
    }

    /** The rewrite block; `threw` when it stops with a TypeError. */
    method RewritePaths() returns (threw: bool)
      modifies this
      ensures threw == IconAssignmentThrows(old(State()))
      ensures State() == Rewritten(old(State()))
    {
      threw := false;
      if serviceWorker.Some? && serviceWorker.value != "" {
        serviceWorker := Some(RemoveFirst(serviceWorker.value, Dist));
      }
      if defaultPopup.Some? && defaultPopup.value != "" {
        defaultPopup := Some(RemoveFirst(defaultPopup.value, Dist));
      }
      if defaultIcon.Some? {
        match defaultIcon.value {
          case Sizes(table) =>
            var stripped := StripEach(table);
            defaultIcon := Some(Sizes(stripped));
          case Path(path) =>
            if path != "" {
              return true;
            }
        }
      }
      if icons.Some? {
        var stripped := StripEach(icons.value);
        icons := Some(stripped);
      }
    }
  }

  method PrepareManifest(input: Input, writeOk: bool) returns (out: Outcome)
    ensures out == Prepared(input, writeOk)
  {
    if !input.Parsed? {
      return Exit(1);
    }
    var manifest := new Manifest(input.json);
    var threw := manifest.RewritePaths();
    if threw || !writeOk {
      return Exit(1);
    }
    out := Written(manifest.State());
  }
}

/** What the rewrite promises. */
module ManifestFacts {
  import opened JsString
  import opened ManifestPrep

  /** A string without the pattern is left as it is. */
  lemma RemoveFirstWithoutMatch(s: string, pat: string)
    requires forall k :: 0 <= k ==> !OccursAt(s, pat, k)
    ensures RemoveFirst(s, pat) == s
  {
  }

  /**
   * With the first occurrence at `i`, that one occurrence is cut out, and
   * putting the pattern back at `i` restores the string.
   */
  lemma RemoveFirstCutsFirst(s: string, pat: string, i: nat)
    requires OccursAt(s, pat, i) && forall k :: 0 <= k < i ==> !OccursAt(s, pat, k)
    ensures RemoveFirst(s, pat) == s[..i] + s[i + |pat|..]
    ensures |RemoveFirst(s, pat)| == |s| - |pat|
    ensures var r := RemoveFirst(s, pat); r[..i] + pat + r[i..] == s
  {
    assert IndexOf(s, pat, 0) == Some(i);
    var t := s[..i] + s[i + |pat|..];
    assert t[..i] == s[..i] && t[i..] == s[i + |pat|..];
    assert s == s[..i] + s[i..i + |pat|] + s[i + |pat|..];
  }

  /** An illustration of `RemoveFirstCutsFirst`: "dist/" is removed wherever it first occurs, not only as a prefix. */
  lemma RemovesInsideThePath(s: string)
    requires s == "icons/dist/a.png"
    ensures RemoveFirst(s, "dist/") == "icons/a.png"
  {
    assert s[6..11] == "dist/";
    forall k | 0 <= k < 6 ensures !OccursAt(s, "dist/", k) {
      assert s[k..k + 5][0] == s[k] != 'd';
    }
    RemoveFirstCutsFirst(s, "dist/", 6);
  }

  /** A path that starts with "dist/" loses exactly that prefix. */
  lemma StripsLeadingDist(s: string, rest: string)
    requires s == Dist + rest
    ensures RemoveFirst(s, Dist) == rest
  {
    assert s[0..5] == Dist;
    RemoveFirstCutsFirst(s, Dist, 0);
    assert s[5..] == rest;
  }

  /**
   * Only the first "dist/" goes, so the rewrite is not idempotent: a
   * service worker at `dist/dist/name` is rewritten to `dist/name`, and a
   * second run gives `name`.
   */
  lemma RewriteIsNotIdempotent(j: ManifestJson, name: string)
    requires j.serviceWorker == Some(Dist + Dist + name)
    ensures Rewritten(j).serviceWorker == Some(Dist + name)
    ensures Rewritten(Rewritten(j)).serviceWorker == Some(name)
  {
    StripsLeadingDist(Dist + Dist + name, Dist + name);
    StripsLeadingDist(Dist + name, name);
  }

  /**
   * The icon tables keep their keys, absent or empty fields are neither
   * created nor changed, and nothing outside the four fields is touched.
   */
  lemma RewriteKeepsShape(j: ManifestJson)
    ensures var r := Rewritten(j);
      && (r.defaultIcon.Some? <==> j.defaultIcon.Some?)
      && (j.defaultIcon.Some? && j.defaultIcon.value.Sizes? ==>
            r.defaultIcon.value.Sizes? && r.defaultIcon.value.table.Keys == j.defaultIcon.value.table.Keys)
      && (j.defaultIcon.Some? && j.defaultIcon.value.Path? ==> r.defaultIcon == j.defaultIcon)
      && (r.icons.Some? <==> j.icons.Some?)
      && (j.icons.Some? ==> r.icons.value.Keys == j.icons.value.Keys)
      && (j.serviceWorker.None? || j.serviceWorker == Some("") ==> r.serviceWorker == j.serviceWorker)
      && (j.defaultPopup.None? || j.defaultPopup == Some("") ==> r.defaultPopup == j.defaultPopup)
      && r.other == j.other
  {
  }

  /** A manifest with no "dist/" in any rewritten value, and no throwing icon, comes out unchanged. */
  lemma CleanManifestUnchanged(j: ManifestJson)
    requires !IconAssignmentThrows(j)
    requires forall k :: 0 <= k ==> j.serviceWorker.Some? ==> !OccursAt(j.serviceWorker.value, "dist/", k)
    requires forall k :: 0 <= k ==> j.defaultPopup.Some? ==> !OccursAt(j.defaultPopup.value, "dist/", k)
    requires j.defaultIcon.Some? && j.defaultIcon.value.Sizes? ==> forall key, k :: key in j.defaultIcon.value.table && 0 <= k ==>
      !OccursAt(j.defaultIcon.value.table[key], "dist/", k)
    requires j.icons.Some? ==> forall key, k :: key in j.icons.value && 0 <= k ==>
      !OccursAt(j.icons.value[key], "dist/", k)
    ensures Rewritten(j) == j
  {
    if j.defaultIcon.Some? && j.defaultIcon.value.Sizes? {
      assert StripValues(j.defaultIcon.value.table) == j.defaultIcon.value.table;
    }
    if j.icons.Some? {
      assert StripValues(j.icons.value) == j.icons.value;
    }
  }

  /**
   * Any read, parse or write failure, or a string icon that makes the
   * rewrite throw, ends with exit code 1; otherwise the rewritten manifest
   * is written.
   */
  lemma FailuresExitWithOne(input: Input, writeOk: bool)
    ensures Prepared(input, writeOk).Exit? <==>
      !input.Parsed? || IconAssignmentThrows(input.json) || !writeOk
    ensures Prepared(input, writeOk).Exit? ==> Prepared(input, writeOk).code == 1
    ensures Prepared(input, writeOk).Written? ==> Prepared(input, writeOk).json == Rewritten(input.json)
  {
  }

  /**
   * A single-path `default_icon` is never rewritten: a non-empty one makes
   * the script exit with 1 and write nothing, an empty one is left as it is.
   */
  lemma StringIconIsNotRewritten(j: ManifestJson, path: string, writeOk: bool)
    requires j.defaultIcon == Some(Path(path))
    ensures path != "" ==> Prepared(Parsed(j), writeOk) == Exit(1)
    ensures path == "" ==> Rewritten(j).defaultIcon == Some(Path(""))
    ensures path == "" && writeOk ==> Prepared(Parsed(j), writeOk).Written?
  {
  }
}

/**
 * The anime extension details screen: the links it builds to an extension's
 * changelog and readme in the extensions repository, the order in which it
 * lists the extension's sources, the base URLs whose cookies it clears and
 * the source ids it toggles, and the presenter state those flows update.
 */
module ExtensionDetails {
  import opened Wrappers
  import opened Text
  import opened Sequences

  const COMMITS_URL: string := "https://github.com/jmir1/aniyomi-extensions/commits/master"
  const BLOB_URL: string := "https://github.com/jmir1/aniyomi-extensions/blob/master"
  const FAQ_URL: string := "https://aniyomi.org/help/faq/#extensions"
  /** The package prefix shared by all anime extensions. */
  const PACKAGE_PREFIX: string := "eu.kanade.tachiyomi.animeextension."
  const MULTISRC_SOURCES: string := "/multisrc/src/main/java/eu/kanade/tachiyomi/multisrc/"
  const MULTISRC_OVERRIDES: string := "/multisrc/overrides/"
  const SINGLE_SOURCE: string := "/src/"
  const CHANGELOG_PATH: string := "/CHANGELOG.md"
  const README_PATH: string := "/README.md"

  /** A source of an extension; only HTTP sources have a base URL. */
  datatype AnimeSource =
    | HttpSource(id: int, name: string, lang: string, baseUrl: string)
    | OtherSource(id: int, name: string, lang: string)

  /** An installed extension, with the fields this screen reads. */
  datatype Extension = Extension(
    pkgName: string,
    pkgFactory: Option<string>,
    hasChangelog: bool,
    hasReadme: bool,
    sources: seq<AnimeSource>)

  /** One row of the source list. */
  datatype SourceItem = SourceItem(source: AnimeSource, enabled: bool, labelAsName: bool)

  // ---------------------------------------------------------------------------
  // Links into the extensions repository

  /** Kotlin's `isNullOrEmpty` on an optional string. */
  predicate IsNullOrEmpty(o: Option<string>) {
    o.None? || o.value == []
  }

  /**
   * `createUrl`: a multi-source extension (non-empty factory) links into the
   * multisrc tree, either at the factory's sources (no path) or at the
   * override directory named by the last dot-segment of the package; any
   * other extension links to its own directory, the package's dots read as
   * path separators.
   */
  function CreateUrl(url: string, pkgName: string, pkgFactory: Option<string>, path: string): (r: string)
    ensures StartsWith(r, url) && EndsWith(r, path)
  {
    if !IsNullOrEmpty(pkgFactory) then
      if path == [] then url + MULTISRC_SOURCES + pkgFactory.value
      else url + MULTISRC_OVERRIDES + pkgFactory.value + "/" + LastSegment(pkgName, '.') + path
    else
      url + SINGLE_SOURCE + ReplaceChar(pkgName, '.', '/') + path
  }

  /** Without a path, a multi-source link names only the factory, whatever the package. */
  lemma MultisrcUrlIgnoresPackage(url: string, p1: string, p2: string, factory: string)
    requires factory != []
    ensures CreateUrl(url, p1, Some(factory), "") == CreateUrl(url, p2, Some(factory), "")
    ensures CreateUrl(url, p1, Some(factory), "") == url + MULTISRC_SOURCES + factory
  {
  }

  /**
   * With a path, the multi-source link's directory is the last dot-segment
   * of the package: it holds no dot, ends the package name, and is either the
   * whole name or follows a dot in it.
   */
  lemma OverrideUrlSegment(url: string, pkgName: string, factory: string, path: string)
    requires factory != [] && path != []
    ensures var r := CreateUrl(url, pkgName, Some(factory), path);
      var head := url + MULTISRC_OVERRIDES + factory + "/";
      && StartsWith(r, head)
      && |head| <= |r| - |path|
      && var seg := r[|head|..|r| - |path|];
      && '.' !in seg
      && EndsWith(pkgName, seg)
      && (seg == pkgName || pkgName[|pkgName| - |seg| - 1] == '.')
  {
    var r := CreateUrl(url, pkgName, Some(factory), path);
    var head := url + MULTISRC_OVERRIDES + factory + "/";
    var last := LastSegment(pkgName, '.');
    LastSegmentIsSuffix(pkgName, '.');
    assert r == head + last + path;
    assert r[..|head|] == head;
    assert r[|head|..|r| - |path|] == last;
  }

  /**
   * A single-source link names the package's directory: the package with
   * every dot turned into a slash. The link keeps no dot of the package, and
   * for a package without slashes turning the slashes back gives the package.
   */
  lemma SingleSourceUrlDirectory(url: string, pkgName: string, factory: Option<string>, path: string)
    requires IsNullOrEmpty(factory)
    ensures var r := CreateUrl(url, pkgName, factory, path);
      var head := url + SINGLE_SOURCE;
      && StartsWith(r, head)
      && |r| == |head| + |pkgName| + |path|
      && var dir := r[|head|..|head| + |pkgName|];
      && '.' !in dir
      && (forall i :: 0 <= i < |pkgName| && pkgName[i] != '.' ==> dir[i] == pkgName[i])
      && ('/' !in pkgName ==> ReplaceChar(dir, '/', '.') == pkgName)
  {
    var r := CreateUrl(url, pkgName, factory, path);
    var head := url + SINGLE_SOURCE;
    var dir := ReplaceChar(pkgName, '.', '/');
    assert r == head + dir + path;
    assert r[..|head|] == head;
    assert r[|head|..|head| + |pkgName|] == dir;
    if '/' !in pkgName {
      var back := ReplaceChar(dir, '/', '.');
      assert forall i :: 0 <= i < |pkgName| ==> back[i] == pkgName[i];
    }
  }

  /** The package name with the common anime-extension prefix removed (`substringAfter`). */
  function ShortPackage(pkgName: string): (r: string)
    ensures StartsWith(pkgName, PACKAGE_PREFIX) ==> pkgName == PACKAGE_PREFIX + r
    ensures IndexOf(pkgName, PACKAGE_PREFIX).None? ==> r == pkgName
  {
    if StartsWith(pkgName, PACKAGE_PREFIX) then
      var rest := pkgName[|PACKAGE_PREFIX|..];
      assert pkgName == PACKAGE_PREFIX + rest;
      SubstringAfterPrefix(PACKAGE_PREFIX, rest);
      SubstringAfter(pkgName, PACKAGE_PREFIX)
    else
      SubstringAfter(pkgName, PACKAGE_PREFIX)
  }

  /** `getChangelogUrl`: empty without an extension. */
  function ChangelogUrl(extension: Option<Extension>): (r: string)
    ensures extension.None? ==> r == ""
    ensures extension.Some? && extension.value.hasChangelog ==>
      StartsWith(r, BLOB_URL) && EndsWith(r, CHANGELOG_PATH)
    ensures extension.Some? && !extension.value.hasChangelog ==> StartsWith(r, COMMITS_URL)
  {
    match extension
    case None => ""
    case Some(e) =>
      if e.hasChangelog then CreateUrl(BLOB_URL, ShortPackage(e.pkgName), e.pkgFactory, CHANGELOG_PATH)
      else CreateUrl(COMMITS_URL, ShortPackage(e.pkgName), e.pkgFactory, "")
  }

  /** `getReadmeUrl`: empty without an extension, the FAQ page without a readme. */
  function ReadmeUrl(extension: Option<Extension>): (r: string)
    ensures extension.None? ==> r == ""
    ensures extension.Some? && !extension.value.hasReadme ==> r == FAQ_URL
    ensures extension.Some? && extension.value.hasReadme ==>
      StartsWith(r, BLOB_URL) && EndsWith(r, README_PATH)
  {
    match extension
    case None => ""
    case Some(e) =>
      if !e.hasReadme then FAQ_URL
      else CreateUrl(BLOB_URL, ShortPackage(e.pkgName), e.pkgFactory, README_PATH)
  }

  /**
   * For a single-source extension whose package starts with the common
   * prefix, the changelog and readme live in the directory named by the rest
   * of the package, dots turned into slashes.
   */
  lemma DocumentUrlsOfSingleSource(rest: string, factory: Option<string>, sources: seq<AnimeSource>)
    requires IsNullOrEmpty(factory)
    ensures ChangelogUrl(Some(Extension(PACKAGE_PREFIX + rest, factory, true, true, sources)))
      == BLOB_URL + SINGLE_SOURCE + ReplaceChar(rest, '.', '/') + CHANGELOG_PATH
    ensures ChangelogUrl(Some(Extension(PACKAGE_PREFIX + rest, factory, false, true, sources)))
      == COMMITS_URL + SINGLE_SOURCE + ReplaceChar(rest, '.', '/')
    ensures ReadmeUrl(Some(Extension(PACKAGE_PREFIX + rest, factory, true, true, sources)))
      == BLOB_URL + SINGLE_SOURCE + ReplaceChar(rest, '.', '/') + README_PATH
  {
    SubstringAfterPrefix(PACKAGE_PREFIX, rest);
  }

  // ---------------------------------------------------------------------------
  // The source list

  /**
   * The label a source is sorted by: its name, or the lower-cased display
   * name of its language. `displayName` stands for the locale helper.
   */
  function Label(item: SourceItem, displayName: string -> string): (r: string)
    ensures item.labelAsName ==> r == item.source.name
    ensures !item.labelAsName ==> |r| == |displayName(item.source.lang)| && Lowercase(r) == r
  {
    if item.labelAsName then item.source.name
    else
      LowercaseIdempotent(displayName(item.source.lang));
      Lowercase(displayName(item.source.lang))
  }

  /**
   * The comparator of `fetchExtensionSources`: first by "not enabled"
   * (false before true), then by label.
   */
  function SourceOrder(displayName: string -> string): (le: (SourceItem, SourceItem) -> bool)
    ensures forall a: SourceItem, b: SourceItem :: a.enabled && !b.enabled ==> le(a, b) && !le(b, a)
    ensures forall a: SourceItem, b: SourceItem :: a.enabled == b.enabled ==>
      (le(a, b) <==> LexLe(Label(a, displayName), Label(b, displayName)))
  {
    (a: SourceItem, b: SourceItem) =>
      if a.enabled != b.enabled then a.enabled
      else LexLe(Label(a, displayName), Label(b, displayName))
  }

  lemma SourceOrderTotalPreorder(displayName: string -> string)
    ensures TotalPreorder(SourceOrder(displayName))
  {
    var le := SourceOrder(displayName);
    forall a, b ensures le(a, b) || le(b, a) {
      LexLeTotal(Label(a, displayName), Label(b, displayName));
    }
    forall a, b, c | le(a, b) && le(b, c) ensures le(a, c) {
      if a.enabled == b.enabled == c.enabled {
        LexLeTransitive(Label(a, displayName), Label(b, displayName), Label(c, displayName));
      }
    }
  }

  /**
   * The sorted source list: the same sources, enabled ones before disabled
   * ones, and within each group by non-decreasing label.
   */
  function SortSources(items: seq<SourceItem>, displayName: string -> string): (r: seq<SourceItem>)
    ensures multiset(r) == multiset(items)
    ensures forall i, j :: 0 <= i < j < |r| ==> r[i].enabled || !r[j].enabled
    ensures forall i, j :: 0 <= i < j < |r| && r[i].enabled == r[j].enabled ==>
      LexLe(Label(r[i], displayName), Label(r[j], displayName))
  {
    SourceOrderTotalPreorder(displayName);
    SortBySorted(items, SourceOrder(displayName));
    SortBy(items, SourceOrder(displayName))
  }

  /** Sources with the same enabled flag and label keep their order (`sortedWith` is stable). */
  lemma SortSourcesStable(items: seq<SourceItem>, displayName: string -> string, x: SourceItem)
    ensures Tied(SortSources(items, displayName), x, SourceOrder(displayName))
      == Tied(items, x, SourceOrder(displayName))
  {
    SourceOrderTotalPreorder(displayName);
    SortByStable(items, x, SourceOrder(displayName));
  }

  // ---------------------------------------------------------------------------
  // Cookies and toggling

  /** The base URLs of the HTTP sources, in order (`filterIsInstance` then `map`). */
  function HttpBaseUrls(sources: seq<AnimeSource>): (urls: seq<string>)
    ensures forall u :: u in urls ==> exists s :: s in sources && s.HttpSource? && s.baseUrl == u
    ensures forall s :: s in sources && s.HttpSource? ==> s.baseUrl in urls
    decreases |sources|
  {
    if sources == [] then []
    else
      assert forall s :: s in sources ==> s == sources[0] || s in sources[1..];
      if sources[0].HttpSource? then [sources[0].baseUrl] + HttpBaseUrls(sources[1..])
      else HttpBaseUrls(sources[1..])
  }

  /**
   * `clearCookies`: the base URLs whose cookies are removed. None without an
   * extension; otherwise each HTTP source's base URL exactly once, and
   * nothing else.
   */
  function CookieUrls(extension: Option<Extension>): (urls: seq<string>)
    ensures extension.None? ==> urls == []
    ensures NoDuplicates(urls)
    ensures extension.Some? ==>
      forall u :: u in urls ==> exists s :: s in extension.value.sources && s.HttpSource? && s.baseUrl == u
    ensures extension.Some? ==>
      forall s :: s in extension.value.sources && s.HttpSource? ==> s.baseUrl in urls
  {
    match extension
    case None => []
    case Some(e) =>
      var all := HttpBaseUrls(e.sources);
      var urls := Distinct(all);
      assert forall u :: u in urls ==> u in all;
      assert forall u :: u in all ==> u in urls;
      urls
  }

  /** The request `toggleSources(enable)` makes: every source id of the extension, in order. */
  datatype ToggleRequest = ToggleRequest(ids: seq<int>, enable: bool)

  /** `toggleSources`: no request without an extension. */
  function ToggleSources(extension: Option<Extension>, enable: bool): (r: Option<ToggleRequest>)
    ensures r.None? <==> extension.None?
    ensures r.Some? ==> r.value.enable == enable && |r.value.ids| == |extension.value.sources|
    ensures r.Some? ==> forall i :: 0 <= i < |r.value.ids| ==> r.value.ids[i] == extension.value.sources[i].id
  {
    match extension
    case None => None
    case Some(e) =>
      Some(ToggleRequest(seq(|e.sources|, i requires 0 <= i < |e.sources| => e.sources[i].id), enable))
  }

  // ---------------------------------------------------------------------------
  // The presenter

  /** Kotlin's `firstOrNull { it.pkgName == pkgName }`. */
  function FindByPkgName(installed: seq<Extension>, pkgName: string): (r: Option<Extension>)
    ensures r.None? <==> forall k :: 0 <= k < |installed| ==> installed[k].pkgName != pkgName
    ensures r.Some? ==>
      exists k :: 0 <= k < |installed| && installed[k] == r.value && r.value.pkgName == pkgName &&
        forall m :: 0 <= m < k ==> installed[m].pkgName != pkgName
    decreases |installed|
  {
    if installed == [] then None
    else if installed[0].pkgName == pkgName then Some(installed[0])
    else
      var r := FindByPkgName(installed[1..], pkgName);
      assert forall k :: 1 <= k < |installed| ==> installed[k] == installed[1..][k - 1];
      if r.Some? then
        var k :| 0 <= k < |installed[1..]| && installed[1..][k] == r.value &&
          r.value.pkgName == pkgName && forall m :: 0 <= m < k ==> installed[1..][m].pkgName != pkgName;
        assert installed[k + 1] == r.value;
        assert forall m :: 0 <= m < k + 1 ==> installed[m].pkgName != pkgName;
        r
      else r
  }

  /** The presenter and the screen state it writes. */
  class Presenter {
    const pkgName: string
    var extension: Option<Extension>
    var isLoading: bool
    var sources: seq<SourceItem>

    constructor (pkgName: string)
      ensures this.pkgName == pkgName
      ensures extension == None && isLoading && sources == []
    {
      this.pkgName := pkgName;
      extension := None;
      isLoading := true;
      sources := [];
    }

    /**
     * One emission of the installed-extensions flow: the extension with this
     * package becomes the state's extension; when there is none the screen
     * is told the extension was uninstalled and the state is kept.
     */
    method OnInstalledExtensions(installed: seq<Extension>) returns (uninstalled: bool)
      modifies this
      ensures uninstalled <==> forall k :: 0 <= k < |installed| ==> installed[k].pkgName != pkgName
      ensures uninstalled ==> extension == old(extension)
      ensures !uninstalled ==> extension == FindByPkgName(installed, pkgName)
      ensures !uninstalled ==> extension.Some? && extension.value.pkgName == pkgName
      ensures isLoading == old(isLoading) && sources == old(sources)
    {
      var found := FindByPkgName(installed, pkgName);
      if found.None? {
        uninstalled := true;
      } else {
        uninstalled := false;
        extension := found;
      }
    }

    /** One emission of the extension's source list: loading ends and the sorted list is shown. */
    method OnExtensionSources(items: seq<SourceItem>, displayName: string -> string)
      modifies this
      ensures !isLoading
      ensures sources == SortSources(items, displayName)
      ensures extension == old(extension)
    {
      isLoading := false;
      sources := SortSources(items, displayName);
    }

    /** The links of the screen, read from the current state. */
    function ChangelogLink(): (r: string)
      reads this
      ensures extension.None? <==> r == ""
    {
      ChangelogUrl(extension)
    }

    function ReadmeLink(): (r: string)
      reads this
      ensures extension.None? <==> r == ""
    {
      ReadmeUrl(extension)
    }
  }
}

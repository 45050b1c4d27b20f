/**
 * The closed set of licenses, their titles, and where their texts come from: inline for
 * a custom license, from the resource bundle for the well-known ones.
 */
module Licenses {
  import opened Wrappers
  import opened Texts

  datatype ApacheVersion = V2
  datatype BsdVersion = ThreeClause
  datatype GplVersion = V3

  datatype License =
    | Mit
    | Apache(apacheVersion: ApacheVersion)
    | Bsd(bsdVersion: BsdVersion)
    | Gpl(gplVersion: GplVersion)
    | Custom(title: string, texts: LicenseTexts)

  predicate IsWellKnown(l: License) {
    !l.Custom?
  }

  /** The display title of a license. */
  function Title(l: License): (r: string)
    ensures l.Custom? ==> r == l.title
    ensures IsWellKnown(l) ==> |r| > 0
  {
    match l
    case Mit => "MIT"
    case Apache(V2) => "Apache v2"
    case Bsd(ThreeClause) => "BSD 3-Clause"
    case Gpl(V3) => "GPL v3"
    case Custom(title, _) => title
  }

  /** The titles of the well-known licenses. */
  lemma WellKnownTitles()
    ensures Title(Mit) == "MIT"
    ensures Title(Apache(V2)) == "Apache v2"
    ensures Title(Bsd(ThreeClause)) == "BSD 3-Clause"
    ensures Title(Gpl(V3)) == "GPL v3"
  {
  }

  /** Each well-known license has a title of its own. */
  lemma WellKnownTitlesDistinct(a: License, b: License)
    requires IsWellKnown(a) && IsWellKnown(b)
    ensures Title(a) == Title(b) <==> a == b
  {
  }

  /**
   * The bundled license texts: for each readable file, its path below the bundle's
   * license-text directory mapped to its UTF-8 contents. A file that is missing or
   * cannot be decoded has no entry.
   */
  type Bundle = map<string, string>

  /** Loading a bundled text failed; the library aborts the process with this path. */
  datatype LoadError = MissingResource(path: string)

  function ResourcePath(directory: string, file: string): string {
    directory + "/" + file
  }

  /**
   * The texts in `directory`: `short.txt` always, `full.txt` only when `hasFull`, each
   * flagged as the caller says.
   */
  function Bundled(bundle: Bundle, directory: string, hasFull: bool := true,
                   shortHasPlaceholders: bool := true, fullHasPlaceholders: bool := false)
    : (r: Result<LicenseTexts, LoadError>)
    ensures r.Ok? <==> ResourcePath(directory, "short.txt") in bundle &&
                       (hasFull ==> ResourcePath(directory, "full.txt") in bundle)
    ensures r.Ok? ==> r.value.short == Text(bundle[ResourcePath(directory, "short.txt")], shortHasPlaceholders)
    ensures r.Ok? ==> (r.value.full.Some? <==> hasFull)
    ensures r.Ok? && hasFull ==>
              r.value.full == Some(Text(bundle[ResourcePath(directory, "full.txt")], fullHasPlaceholders))
    ensures r.Err? ==> r.error.path in {ResourcePath(directory, "short.txt"), ResourcePath(directory, "full.txt")}
                       && r.error.path !in bundle
  {
    var shortPath := ResourcePath(directory, "short.txt");
    var fullPath := ResourcePath(directory, "full.txt");
    if shortPath !in bundle then Err(MissingResource(shortPath))
    else if hasFull && fullPath !in bundle then Err(MissingResource(fullPath))
    else
      Ok(LicenseTexts(Text(bundle[shortPath], shortHasPlaceholders),
                      if hasFull then Some(Text(bundle[fullPath], fullHasPlaceholders)) else None))
  }

  /** The unresolved texts of a license. */
  function BaseTexts(l: License, bundle: Bundle): (r: Result<LicenseTexts, LoadError>)
    ensures l.Custom? ==> r == Ok(l.texts)
    ensures IsWellKnown(l) && r.Ok? ==>
              && r.value.short.hasPlaceholders
              && (r.value.full.Some? <==> HasFullText(l))
              && (r.value.full.Some? ==> !r.value.full.value.hasPlaceholders)
  {
    match l
    case Mit => Bundled(bundle, "MIT", hasFull := false)
    case Apache(V2) => Bundled(bundle, "Apache/v2")
    case Bsd(ThreeClause) => Bundled(bundle, "BSD/3Clause", hasFull := false)
    case Gpl(V3) => Bundled(bundle, "GPL/v3")
    case Custom(_, texts) => Ok(texts)
  }

  /** The bundle directory a well-known license reads from. */
  function Directory(l: License): string
    requires IsWellKnown(l)
  {
    match l
    case Mit => "MIT"
    case Apache(V2) => "Apache/v2"
    case Bsd(ThreeClause) => "BSD/3Clause"
    case Gpl(V3) => "GPL/v3"
  }

  /** Whether a well-known license ships a full text besides the short one. */
  predicate HasFullText(l: License)
    requires IsWellKnown(l)
  {
    l.Apache? || l.Gpl?
  }

  /**
   * Loading a well-known license succeeds exactly when its files are in the bundle, and
   * then follows the fixed table: a short text with placeholders, and a full text without
   * placeholders for Apache and GPL only.
   */
  lemma WellKnownBaseTexts(l: License, bundle: Bundle)
    requires IsWellKnown(l)
    ensures var r := BaseTexts(l, bundle);
            var shortPath, fullPath := ResourcePath(Directory(l), "short.txt"), ResourcePath(Directory(l), "full.txt");
            && (r.Ok? <==> shortPath in bundle && (HasFullText(l) ==> fullPath in bundle))
            && (r.Ok? ==> r.value.short == Text(bundle[shortPath], true))
            && (r.Ok? ==> (r.value.full.Some? <==> HasFullText(l)))
            && (r.Ok? && HasFullText(l) ==> r.value.full == Some(Text(bundle[fullPath], false)))
  {
  }

  /** The well-known licenses. */
  const WellKnown: seq<License> := [Mit, Apache(V2), Bsd(ThreeClause), Gpl(V3)]

  /** The files a well-known license reads from the bundle. */
  function RequiredFiles(l: License): seq<string>
    requires IsWellKnown(l)
  {
    [ResourcePath(Directory(l), "short.txt")] +
    (if HasFullText(l) then [ResourcePath(Directory(l), "full.txt")] else [])
  }

  /** The bundle holds every file the well-known licenses read, none of them empty. */
  predicate Packaged(bundle: Bundle) {
    forall l, path | l in WellKnown && path in RequiredFiles(l) :: path in bundle && |bundle[path]| > 0
  }

  /** From a complete bundle every well-known license loads, with non-empty texts. */
  lemma PackagedBundleLoads(l: License, bundle: Bundle)
    requires IsWellKnown(l) && Packaged(bundle)
    ensures BaseTexts(l, bundle).Ok?
    ensures |BaseTexts(l, bundle).value.short.content| > 0
    ensures BaseTexts(l, bundle).value.short.hasPlaceholders
    ensures BaseTexts(l, bundle).value.full.None? <==> l.Mit? || l.Bsd?
    ensures BaseTexts(l, bundle).value.full.Some? ==>
              |BaseTexts(l, bundle).value.full.value.content| > 0 && !BaseTexts(l, bundle).value.full.value.hasPlaceholders
  {
    assert l == WellKnown[if l.Mit? then 0 else if l.Apache? then 1 else if l.Bsd? then 2 else 3];
    var files := RequiredFiles(l);
    assert files[0] in files;
    assert HasFullText(l) ==> files[1] in files;
    WellKnownBaseTexts(l, bundle);
  }
}

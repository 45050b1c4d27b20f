/**
 * A licensed component: a value that shares one storage object, whose license and
 * copyright details never change and whose base and resolved texts are computed on first
 * read and then kept.
 */
module Components {
  import opened Wrappers
  import opened Texts
  import opened Licenses
  import opened Replace

  /** The resolved texts a component with this license and these details shows. */
  function ResolvedTextsOf(l: License, d: CopyrightDetails, bundle: Bundle): (r: Result<Resolved, LoadError>)
    ensures r.Ok? <==> Licenses.BaseTexts(l, bundle).Ok?
    ensures r.Ok? ==> r.value == ResolveTexts(Licenses.BaseTexts(l, bundle).value, d)
    ensures r.Err? ==> r.error == Licenses.BaseTexts(l, bundle).error
    ensures l.Custom? ==> r == Ok(ResolveTexts(l.texts, d))
  {
    match Licenses.BaseTexts(l, bundle)
    case Ok(texts) => Ok(ResolveTexts(texts, d))
    case Err(e) => Err(e)
  }

  /**
   * The shared storage of a component. `bundle` stands for the library's resource bundle,
   * which is the same for every component of a process.
   */
  class Storage {
    const license: License
    const details: CopyrightDetails
    const bundle: Bundle
    var baseTextsCache: Option<LicenseTexts>
    var resolvedTextsCache: Option<Resolved>

    /** A filled cache holds what its computation gives; the resolved one is filled only after the base one. */
    ghost predicate Valid()
      reads this
    {
      && (baseTextsCache.Some? ==> Licenses.BaseTexts(license, bundle) == Ok(baseTextsCache.value))
      && (resolvedTextsCache.Some? ==>
            baseTextsCache.Some? && resolvedTextsCache.value == ResolveTexts(baseTextsCache.value, details))
    }

    constructor (license: License, details: CopyrightDetails, bundle: Bundle)
      ensures this.license == license && this.details == details && this.bundle == bundle
      ensures baseTextsCache == None && resolvedTextsCache == None
      ensures Valid()
    {
      this.license := license;
      this.details := details;
      this.bundle := bundle;
      baseTextsCache := None;
      resolvedTextsCache := None;
    }

    /**
     * The license's base texts, loaded on the first read and cached; a failed load is the
     * process abort and leaves the cache empty.
     */
    method BaseTexts() returns (r: Result<LicenseTexts, LoadError>)
      requires Valid()
      modifies this
      ensures Valid()
      ensures r == Licenses.BaseTexts(license, bundle)
      ensures baseTextsCache == if r.Ok? then Some(r.value) else old(baseTextsCache)
      ensures old(baseTextsCache).Some? ==> baseTextsCache == old(baseTextsCache)
      ensures resolvedTextsCache == old(resolvedTextsCache)
    {
      match baseTextsCache
      case Some(texts) =>
        r := Ok(texts);
      case None =>
        r := Licenses.BaseTexts(license, bundle);
        if r.Ok? {
          baseTextsCache := Some(r.value);
        }
    }

    /**
     * The base texts with the details filled in, computed on the first read (reading the
     * base texts first) and cached.
     */
    method ResolvedTexts() returns (r: Result<Resolved, LoadError>)
      requires Valid()
      modifies this
      ensures Valid()
      ensures r == ResolvedTextsOf(license, details, bundle)
      ensures baseTextsCache == if r.Ok? then Licenses.BaseTexts(license, bundle).ToOption() else old(baseTextsCache)
      ensures resolvedTextsCache == if r.Ok? then Some(r.value) else old(resolvedTextsCache)
      ensures old(baseTextsCache).Some? ==> baseTextsCache == old(baseTextsCache)
      ensures old(resolvedTextsCache).Some? ==> resolvedTextsCache == old(resolvedTextsCache)
    {
      match resolvedTextsCache
      case Some(resolved) =>
        r := Ok(resolved);
      case None =>
        var base := BaseTexts();
        match base
        case Err(e) =>
          r := Err(e);
        case Ok(texts) =>
          var resolved := ResolveTexts(texts, details);
          resolvedTextsCache := Some(resolved);
          r := Ok(resolved);
    }
  }

  /** A licensed component; copies of the value share one storage object. */
  datatype LicensedComponent = LicensedComponent(storage: Storage) {

    function Name(): string {
      storage.details.licensedProduct
    }

    function License(): Licenses.License {
      storage.license
    }

    function CopyrightYears(): string {
      storage.details.years
    }

    function CopyrightHolders(): string {
      storage.details.holders
    }

    /** The unresolved texts of the component's license, cached after the first read. */
    method BaseTexts() returns (r: Result<LicenseTexts, LoadError>)
      requires storage.Valid()
      modifies storage
      ensures storage.Valid()
      ensures r == Licenses.BaseTexts(License(), storage.bundle)
      ensures storage.baseTextsCache == if r.Ok? then Some(r.value) else old(storage.baseTextsCache)
      ensures storage.resolvedTextsCache == old(storage.resolvedTextsCache)
    {
      r := storage.BaseTexts();
    }

    /** The texts with the component's details filled in, cached after the first read. */
    method ResolvedTexts() returns (r: Result<Resolved, LoadError>)
      requires storage.Valid()
      modifies storage
      ensures storage.Valid()
      ensures r == ResolvedTextsOf(License(), storage.details, storage.bundle)
      ensures storage.baseTextsCache ==
                if r.Ok? then Licenses.BaseTexts(License(), storage.bundle).ToOption() else old(storage.baseTextsCache)
      ensures storage.resolvedTextsCache == if r.Ok? then Some(r.value) else old(storage.resolvedTextsCache)
    {
      r := storage.ResolvedTexts();
    }

    /** The view-update hook: it only warms the resolved-texts cache. */
    method Update()
      requires storage.Valid()
      modifies storage
      ensures storage.Valid()
      ensures ResolvedTextsOf(License(), storage.details, storage.bundle).Ok? ==> storage.resolvedTextsCache.Some?
      ensures old(storage.resolvedTextsCache).Some? ==> storage.resolvedTextsCache == old(storage.resolvedTextsCache)
    {
      var _ := storage.ResolvedTexts();
    }
  }

  /** Creates a component; nothing about the arguments is checked, and nothing is loaded yet. */
  method Create(name: string, license: License, copyrightYears: string, copyrightHolders: string, bundle: Bundle)
    returns (c: LicensedComponent)
    ensures fresh(c.storage) && c.storage.Valid()
    ensures c.Name() == name && c.License() == license
    ensures c.CopyrightYears() == copyrightYears && c.CopyrightHolders() == copyrightHolders
    ensures c.storage.bundle == bundle
    ensures c.storage.baseTextsCache == None && c.storage.resolvedTextsCache == None
  {
    var storage := new Storage(license, CopyrightDetails(name, copyrightYears, copyrightHolders), bundle);
    c := LicensedComponent(storage);
  }

  /**
   * Equality compares license and details, never the caches: two components are equal
   * exactly when they were built from the same four arguments.
   */
  predicate Equal(a: LicensedComponent, b: LicensedComponent)
    ensures Equal(a, b) <==>
            a.Name() == b.Name() && a.License() == b.License() &&
            a.CopyrightYears() == b.CopyrightYears() && a.CopyrightHolders() == b.CopyrightHolders()
  {
    (a.storage.license, a.storage.details) == (b.storage.license, b.storage.details)
  }

  /**
   * The hash value a hasher gives the component. `hash(into:)` feeds the hasher the
   * license, then the details, so the value is fixed by the four construction arguments.
   */
  function HashValue(c: LicensedComponent, hasher: ((License, CopyrightDetails)) -> int): (h: int)
    ensures h == hasher((c.License(), CopyrightDetails(c.Name(), c.CopyrightYears(), c.CopyrightHolders())))
  {
    hasher((c.storage.license, c.storage.details))
  }

  /** Equality is an equivalence relation. */
  lemma EqualIsEquivalence(a: LicensedComponent, b: LicensedComponent, c: LicensedComponent)
    ensures Equal(a, a)
    ensures Equal(a, b) ==> Equal(b, a)
    ensures Equal(a, b) && Equal(b, c) ==> Equal(a, c)
  {
  }

  /** Equal components hash equal, under every hasher. */
  lemma EqualHashEqual(a: LicensedComponent, b: LicensedComponent, hasher: ((License, CopyrightDetails)) -> int)
    requires Equal(a, b)
    ensures HashValue(a, hasher) == HashValue(b, hasher)
  {
  }

  /**
   * With a complete bundle every well-known license resolves; only Apache and GPL have a
   * full text, which is shown exactly as bundled.
   */
  lemma PackagedResolvedTexts(l: License, d: CopyrightDetails, bundle: Bundle)
    requires IsWellKnown(l) && Packaged(bundle)
    ensures ResolvedTextsOf(l, d, bundle).Ok?
    ensures ResolvedTextsOf(l, d, bundle).value.full.Some? <==> l.Apache? || l.Gpl?
    ensures l.Apache? || l.Gpl? ==>
              ResolvedTextsOf(l, d, bundle).value.full == Some(bundle[ResourcePath(Directory(l), "full.txt")])
  {
    PackagedBundleLoads(l, bundle);
    WellKnownBaseTexts(l, bundle);
  }

  /** A custom license whose short text fills in the years, and its resolved texts. */
  lemma CustomYearScenario(bundle: Bundle)
    ensures ResolvedTextsOf(Custom("Custom", LicenseTexts(Text("%year% anyway", true))),
                            CopyrightDetails("Test Component", "2020-2021", "Tester"), bundle)
            == Ok(Resolved("2020-2021 anyway", None))
  {
    YearExample();
  }

  /**
   * Two components built from the same arguments are equal and hash equal, also after one
   * of them has filled its caches.
   */
  method HashableScenario(bundle: Bundle, hasher: ((License, CopyrightDetails)) -> int)
    returns (filled: bool, equal: bool, sameHash: bool)
    requires Packaged(bundle)
    ensures filled && equal && sameHash
  {
    var a := Create("Test Component", Apache(V2), "2020-2021", "Tester", bundle);
    var b := Create("Test Component", Apache(V2), "2020-2021", "Tester", bundle);
    PackagedResolvedTexts(Apache(V2), a.storage.details, bundle);
    var _ := a.ResolvedTexts();
    filled := a.storage.baseTextsCache.Some? && a.storage.resolvedTextsCache.Some?;
    equal := Equal(a, b);
    sameHash := HashValue(a, hasher) == HashValue(b, hasher);
  }

  /** The view-update hook leaves a component with its resolved texts cached. */
  method UpdateScenario(bundle: Bundle) returns (cached: bool)
    requires Packaged(bundle)
    ensures cached
  {
    var c := Create("Test Component", Apache(V2), "2020-2021", "Tester", bundle);
    PackagedResolvedTexts(Apache(V2), c.storage.details, bundle);
    c.Update();
    cached := c.storage.resolvedTextsCache.Some?;
  }

  /** A component with a custom license reports its title and its own texts, read twice. */
  method CustomLicenseScenario(bundle: Bundle) returns (title: string, first: Result<LicenseTexts, LoadError>,
                                                        second: Result<LicenseTexts, LoadError>)
    ensures title == "Custom"
    ensures first == second == Ok(LicenseTexts(Text("%year% anyway", true), Some(Text("Nope", false))))
  {
    var texts := LicenseTexts(Text("%year% anyway", true), Some(Text("Nope", false)));
    var c := Create("Test Component", Custom("Custom", texts), "2020-2021", "Tester", bundle);
    title := Title(c.License());
    first := c.BaseTexts();
    second := c.BaseTexts();
  }

  /** The years placeholder of a custom short text is filled in when the component resolves it. */
  method TextResolvingScenario(bundle: Bundle) returns (r: Result<Resolved, LoadError>)
    ensures r == Ok(Resolved("2020-2021 anyway", None))
    ensures !Occurs(r.value.short, YearToken)
  {
    var texts := LicenseTexts(Text("%year% anyway", true));
    var c := Create("Test Component", Custom("Custom", texts), "2020-2021", "Tester", bundle);
    CustomYearScenario(bundle);
    YearExample();
    r := c.ResolvedTexts();
  }
}

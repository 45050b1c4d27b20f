/**
 * License texts with placeholders, and their resolution against the copyright details
 * of a component.
 */
module Texts {
  import opened Wrappers
  import opened Replace

  /** The product name, copyright years and copyright holders of a component. */
  datatype CopyrightDetails = CopyrightDetails(licensedProduct: string, years: string, holders: string)

  /** An unresolved text; `hasPlaceholders` says whether resolution should touch it at all. */
  datatype Text = Text(content: string, hasPlaceholders: bool)

  /** A short text and, when the short one does not already cover it, the full text. */
  datatype LicenseTexts = LicenseTexts(short: Text, full: Option<Text> := None)

  /** License texts whose placeholders have been replaced. */
  datatype Resolved = Resolved(short: string, full: Option<string>)

  const ProductNameToken: string := "%productname%"
  const YearToken: string := "%year%"
  const HoldersToken: string := "%copyrightholders%"

  /** No placeholder token occurs in `s`. */
  predicate HasNoTokens(s: string) {
    !Occurs(s, ProductNameToken) && !Occurs(s, YearToken) && !Occurs(s, HoldersToken)
  }

  /**
   * Resolution of one text: untouched when it declares no placeholders, otherwise the
   * product name, then the years, then the holders are substituted, each step working on
   * the output of the one before. A text in which no token occurs resolves to itself
   * either way, so the flag only saves the scan.
   */
  function ResolveText(t: Text, d: CopyrightDetails): (r: string)
    ensures !t.hasPlaceholders ==> r == t.content
    ensures HasNoTokens(t.content) ==> r == t.content
  {
    if !t.hasPlaceholders then t.content
    else
      var withProduct := ReplaceAll(t.content, ProductNameToken, d.licensedProduct);
      var withYears := ReplaceAll(withProduct, YearToken, d.years);
      var resolved := ReplaceAll(withYears, HoldersToken, d.holders);
      assert HasNoTokens(t.content) ==> resolved == t.content by {
        if HasNoTokens(t.content) {
          NoOccurrenceUnchanged(t.content, ProductNameToken, d.licensedProduct);
          NoOccurrenceUnchanged(t.content, YearToken, d.years);
          NoOccurrenceUnchanged(t.content, HoldersToken, d.holders);
        }
      }
      resolved
  }

  /** Resolution of license texts keeps their shape: a full text exactly when there was one. */
  function ResolveTexts(t: LicenseTexts, d: CopyrightDetails): (r: Resolved)
    ensures r.short == ResolveText(t.short, d)
    ensures r.full.None? <==> t.full.None?
    ensures t.full.Some? ==> r.full == Some(ResolveText(t.full.value, d))
  {
    Resolved(ResolveText(t.short, d),
             match t.full
             case None => None
             case Some(f) => Some(ResolveText(f, d)))
  }

  /** A text without any `%` resolves to itself, whatever the details. */
  lemma ResolveWithoutPercent(s: string, hasPlaceholders: bool, d: CopyrightDetails)
    requires '%' !in s
    ensures ResolveText(Text(s, hasPlaceholders), d) == s
  {
    MissingCharNoOccurrence(s, ProductNameToken, '%');
    MissingCharNoOccurrence(s, YearToken, '%');
    MissingCharNoOccurrence(s, HoldersToken, '%');
  }

  /** No token occurs inside another, so a step cannot rewrite a later token. */
  lemma TokensAreSeparate()
    ensures !Occurs(YearToken, ProductNameToken) && !Occurs(YearToken, HoldersToken)
    ensures !Occurs(ProductNameToken, YearToken) && !Occurs(ProductNameToken, HoldersToken)
    ensures !Occurs(HoldersToken, ProductNameToken) && !Occurs(HoldersToken, YearToken)
  {
    MissingCharNoOccurrence(HoldersToken, ProductNameToken, 'n');
    MissingCharNoOccurrence(HoldersToken, YearToken, 'a');
    MissingCharNoOccurrence(ProductNameToken, YearToken, 'y');
  }

  /** The product-name token alone resolves to the product name when that holds no later token. */
  lemma ResolveProductNameToken(d: CopyrightDetails)
    requires !Occurs(d.licensedProduct, YearToken) && !Occurs(d.licensedProduct, HoldersToken)
    ensures ResolveText(Text(ProductNameToken, true), d) == d.licensedProduct
  {
    ReplaceWholePattern(ProductNameToken, d.licensedProduct);
    NoOccurrenceUnchanged(d.licensedProduct, YearToken, d.years);
    NoOccurrenceUnchanged(d.licensedProduct, HoldersToken, d.holders);
  }

  /** The year token alone resolves to the years when they hold no holders token. */
  lemma ResolveYearToken(d: CopyrightDetails)
    requires !Occurs(d.years, HoldersToken)
    ensures ResolveText(Text(YearToken, true), d) == d.years
  {
    TokensAreSeparate();
    NoOccurrenceUnchanged(YearToken, ProductNameToken, d.licensedProduct);
    ReplaceWholePattern(YearToken, d.years);
    NoOccurrenceUnchanged(d.years, HoldersToken, d.holders);
  }

  /** The holders token alone always resolves to the holders. */
  lemma ResolveHoldersToken(d: CopyrightDetails)
    ensures ResolveText(Text(HoldersToken, true), d) == d.holders
  {
    TokensAreSeparate();
    NoOccurrenceUnchanged(HoldersToken, ProductNameToken, d.licensedProduct);
    NoOccurrenceUnchanged(HoldersToken, YearToken, d.years);
    ReplaceWholePattern(HoldersToken, d.holders);
  }

  /**
   * Later steps scan the output of earlier ones: a year token brought in by the product
   * name is itself replaced by the years.
   */
  lemma ProductNameIsRescanned(years: string, holders: string)
    requires !Occurs(years, HoldersToken)
    ensures ResolveText(Text(ProductNameToken, true), CopyrightDetails(YearToken, years, holders)) == years
  {
    TokensAreSeparate();
    ReplaceWholePattern(ProductNameToken, YearToken);
    ReplaceWholePattern(YearToken, years);
    NoOccurrenceUnchanged(years, HoldersToken, holders);
  }

  /** The replace-all step for the years on the test's custom short text. */
  lemma YearStepExample()
    ensures ReplaceAll("%year% anyway", YearToken, "2020-2021") == "2020-2021 anyway"
  {
    MissingCharNoOccurrence(" anyway", YearToken, '%');
    assert IsAt("%year% anyway", YearToken, 0);
    NoOccurrenceFrom("%year% anyway", YearToken, "2020-2021", |YearToken|);
  }

  /** The year placeholder of a custom short text is filled and none is left. */
  lemma YearExample()
    ensures ResolveText(Text("%year% anyway", true), CopyrightDetails("Test Component", "2020-2021", "Tester"))
            == "2020-2021 anyway"
    ensures !Occurs("2020-2021 anyway", YearToken)
  {
    MissingCharNoOccurrence("%year% anyway", ProductNameToken, 'p');
    NoOccurrenceUnchanged("%year% anyway", ProductNameToken, "Test Component");
    YearStepExample();
    MissingCharNoOccurrence("2020-2021 anyway", YearToken, '%');
    MissingCharNoOccurrence("2020-2021 anyway", HoldersToken, '%');
    NoOccurrenceUnchanged("2020-2021 anyway", HoldersToken, "Tester");
  }

  /** A literal custom text stays as written. */
  lemma LiteralExample(d: CopyrightDetails)
    ensures ResolveText(Text("Nope", false), d) == "Nope"
  {
  }
}

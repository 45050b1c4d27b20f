# Licensed components — a Dafny model

This project models the data and template layer of a Swift library that describes the
third-party components an application credits: a component has a name, a license, copyright
years and holders, and license texts (a short one and an optional full one) that may carry
the placeholders `%productname%`, `%year%` and `%copyrightholders%`.

Modules, one per concept of `Sources/LicensedComponents/LicensedComponent.swift`:

- `Wrappers`: `Option` and `Result`.
- `Replace`: replace-all on strings. This is the behaviour of Foundation's
  `replacingOccurrences(of:with:)`: a left-to-right scan that never lets two occurrences
  overlap. `ReplaceAll` is specified by lemmas. A string the pattern does not
  occur in is unchanged. The result is unchanged exactly when the pattern does not occur or
  is replaced by itself. The result's length follows from the number of occurrences. Before
  the first occurrence the string is copied, and the scan resumes right after it.
- `Texts`: `Text`, `LicenseTexts`, `Resolved`, `CopyrightDetails` and resolution
  (`ResolveText`, `ResolveTexts`).
- `Licenses`: the closed `License` sum type, `Title`, the bundled-text loader `Bundled` with
  the source's default arguments, and the per-variant table `BaseTexts`.
- `Components`: the `Storage` class with its two lazily filled caches, and the
  `LicensedComponent` value that wraps a `Storage` reference. It also holds the accessors,
  equality and hashing, and client methods that replay the library's tests.

The resource bundle is the map `Bundle`, from a file path below the bundle's license-text
directory to that file's UTF-8 contents. A file that is missing or cannot be decoded has no
entry. The library kills the process when a load fails. The model returns
`Err(MissingResource(path))` for that instead, and the cache stays empty. A component's
bundle is fixed when the component is created. It stands for the one `Bundle.module` of the
process.

A swift `lazy var` is a field of type `Option` that the getter method fills on first read.
`Storage.Valid()` is the cache invariant:
- a filled base-texts cache equals `Licenses.BaseTexts(license, bundle)`;
- a filled resolved-texts cache equals `ResolveTexts` of the cached base texts;
- the resolved cache is filled only after the base cache.

`Equal` and `HashValue` have no `reads` clause. So Dafny itself guarantees that
they cannot depend on the cache fields.

The three replace-alls of `Text._resolve` run one after the other, each on the output of
the previous one. So a `%year%` or `%copyrightholders%` inside the product name, or a
`%copyrightholders%` inside the years, is replaced too. `Texts.ProductNameIsRescanned`
states it.

## Model

| member | source | states |
|---|---|---|
| `Replace.ReplaceAll` | Sources/LicensedComponents/LicensedComponent.swift:149-152 | replaces every occurrence of a pattern; an empty pattern, or a pattern replaced by itself, leaves the string unchanged |
| `Replace.NoOccurrenceUnchanged` | Sources/LicensedComponents/LicensedComponent.swift:149-152 | when the pattern does not occur in a string, replace-all returns it unchanged and finds nothing to count |
| `Replace.NoOccurrenceFrom` | Sources/LicensedComponents/LicensedComponent.swift:149-152 | when the pattern does not occur from index k on, the scan copies the rest of the string |
| `Replace.UnchangedIff` | Sources/LicensedComponents/LicensedComponent.swift:149-152 | replace-all leaves a string unchanged if and only if the replacement equals the pattern or the pattern does not occur |
| `Replace.OccurrenceChanges` | Sources/LicensedComponents/LicensedComponent.swift:149-152 | an occurrence replaced by a different text always changes the result |
| `Replace.SameLengthReplacementChanges` | Sources/LicensedComponents/LicensedComponent.swift:149-152 | at the first occurrence, a same-length different replacement makes the result differ from the input |
| `Replace.OtherLengthReplacementChanges` | Sources/LicensedComponents/LicensedComponent.swift:149-152 | a replacement of another length changes the length once the pattern occurs |
| `Replace.ReplaceWithItself` | Sources/LicensedComponents/LicensedComponent.swift:149-152 | replacing a pattern by itself returns the scanned string unchanged |
| `Replace.ReplaceFromLength` | Sources/LicensedComponents/LicensedComponent.swift:149-152 | the scan's output length is the input length plus, per counted occurrence, the difference between replacement and pattern lengths |
| `Replace.ReplaceAllLength` | Sources/LicensedComponents/LicensedComponent.swift:149-152 | the length of a replace-all result, from the number of occurrences it replaced |
| `Replace.FirstIndex` | Sources/LicensedComponents/LicensedComponent.swift:149-152 | an occurring pattern has a first occurrence, before which it does not occur |
| `Replace.NextOccurrence` | Sources/LicensedComponents/LicensedComponent.swift:149-152 | up to the next occurrence the text is copied, that occurrence becomes the replacement, and the scan resumes right after it (no overlap) |
| `Replace.NextOccurrenceCount` | Sources/LicensedComponents/LicensedComponent.swift:149-152 | the next occurrence is counted once and counting resumes after it |
| `Replace.MissingCharNoOccurrence` | Sources/LicensedComponents/LicensedComponent.swift:149-152 | a pattern holding a character the string lacks does not occur in it |
| `Replace.ReplaceWholePattern` | Sources/LicensedComponents/LicensedComponent.swift:149-152 | a string that is exactly the pattern becomes exactly the replacement |
| `Texts.ResolveText` | Sources/LicensedComponents/LicensedComponent.swift:147-153 | a text without the placeholder flag resolves to its own string, whatever the details; a string in which no token occurs resolves to itself with or without the flag, so the flag only saves the scan |
| `Texts.ResolveWithoutPercent` | Sources/LicensedComponents/LicensedComponent.swift:147-153 | a string without `%` resolves to itself, whatever the flag and the details |
| `Texts.TokensAreSeparate` | Sources/LicensedComponents/LicensedComponent.swift:149-152 | none of the three tokens occurs inside another |
| `Texts.ResolveProductNameToken` | Sources/LicensedComponents/LicensedComponent.swift:150 | `%productname%` resolves to the product name when the name holds no later token |
| `Texts.ResolveYearToken` | Sources/LicensedComponents/LicensedComponent.swift:151 | `%year%` resolves to the years when they hold no holders token |
| `Texts.ResolveHoldersToken` | Sources/LicensedComponents/LicensedComponent.swift:152 | `%copyrightholders%` always resolves to the holders |
| `Texts.ProductNameIsRescanned` | Sources/LicensedComponents/LicensedComponent.swift:149-152 | the substitutions run in order, each on the previous output: a product name `%year%` ends up as the years |
| `Texts.YearStepExample` | Sources/LicensedComponents/LicensedComponent.swift:151 | replacing `%year%` in `"%year% anyway"` by `"2020-2021"` gives `"2020-2021 anyway"` |
| `Texts.YearExample` | Tests/LicensedComponentsTests/LicensedComponentTests.swift:114-122 | `"%year% anyway"` with years `"2020-2021"` resolves to `"2020-2021 anyway"`, which holds no `%year%` |
| `Texts.LiteralExample` | Tests/LicensedComponentsTests/LicensedComponentTests.swift:104-105 | the literal text `"Nope"` resolves to `"Nope"` for any details |
| `Texts.ResolveTexts` | Sources/LicensedComponents/LicensedComponent.swift:170-173 | the resolved short text is the short text resolved; the full text is absent exactly when it was absent, and otherwise is the full text resolved |
| `Licenses.Title` | Sources/LicensedComponents/LicensedComponent.swift:211-219 | the title of `custom(t, _)` is `t`, and every well-known title is non-empty |
| `Licenses.WellKnownTitles` | Tests/LicensedComponentsTests/LicensedComponentTests.swift:65-94 | the titles are "MIT", "Apache v2", "BSD 3-Clause" and "GPL v3" |
| `Licenses.WellKnownTitlesDistinct` | Sources/LicensedComponents/LicensedComponent.swift:211-219 | two well-known licenses have the same title if and only if they are the same license |
| `Licenses.Bundled` | Sources/LicensedComponents/LicensedComponent.swift:227-240 | loading succeeds exactly when `short.txt` (and `full.txt` when asked for) is present under the directory; the texts are the file contents with the requested flags; a full text exists exactly when asked for; a failure names the missing file |
| `Licenses.BaseTexts` | Sources/LicensedComponents/LicensedComponent.swift:244-251 | a custom license gives back its own texts, whatever the bundle holds; a loaded well-known license has a short text with placeholders, and a full text, without placeholders, exactly for Apache and GPL |
| `Licenses.WellKnownBaseTexts` | Sources/LicensedComponents/LicensedComponent.swift:244-251 | a well-known license loads exactly when its files are present; its short text comes from `short.txt` with placeholders; only Apache and GPL have a full text, from `full.txt`, without placeholders |
| `Licenses.PackagedBundleLoads` | Tests/LicensedComponentsTests/LicensedComponentTests.swift:59-100 | given a bundle holding every file with content, every well-known license loads a non-empty short text with placeholders; MIT and BSD have no full text; Apache and GPL have a non-empty full text without placeholders |
| `Components.Storage.constructor` | Sources/LicensedComponents/LicensedComponent.swift:33-36 | the storage keeps license and details as given, with both caches empty |
| `Components.Storage.BaseTexts` | Sources/LicensedComponents/LicensedComponent.swift:29 | returns the license's base texts on every read; the first successful read fills the cache, a filled cache is never rewritten, and the other cache is untouched |
| `Components.Storage.ResolvedTexts` | Sources/LicensedComponents/LicensedComponent.swift:31 | returns the base texts resolved with the details; it fills the base cache first and then the resolved cache; once filled, neither changes |
| `Components.LicensedComponent.BaseTexts` | Sources/LicensedComponents/LicensedComponent.swift:61 | the component's base texts are its license's, read through the shared cache |
| `Components.LicensedComponent.ResolvedTexts` | Sources/LicensedComponents/LicensedComponent.swift:65 | the component's resolved texts are its base texts resolved with its own details, read through the shared cache |
| `Components.LicensedComponent.Update` | Sources/LicensedComponents/LicensedComponent.swift:99-104 | the view-update hook fills the resolved-texts cache whenever the texts can be loaded, and keeps a filled one |
| `Components.Create` | Sources/LicensedComponents/LicensedComponent.swift:44-83 | creation always succeeds; the accessors `Name`, `License`, `CopyrightYears` and `CopyrightHolders` read back exactly the arguments given, and nothing is loaded yet |
| `Components.Equal` | Sources/LicensedComponents/LicensedComponent.swift:90-92 | two components are equal if and only if name, license, years and holders agree; the caches play no part |
| `Components.HashValue` | Sources/LicensedComponents/LicensedComponent.swift:85-88 | the hash value is the hasher applied to the license and then the details, so it is fixed by the four construction arguments |
| `Components.EqualIsEquivalence` | Sources/LicensedComponents/LicensedComponent.swift:90-92 | component equality is reflexive, symmetric and transitive |
| `Components.EqualHashEqual` | Sources/LicensedComponents/LicensedComponent.swift:85-88 | equal components get the same hash value under every hasher, since only license and details are hashed |
| `Components.ResolvedTextsOf` | Sources/LicensedComponents/LicensedComponent.swift:31 | resolution succeeds exactly when the base texts load, and then gives the base texts resolved with the details; a failure is the load's failure; a custom license resolves its own texts, whatever the bundle holds |
| `Components.PackagedResolvedTexts` | Sources/LicensedComponents/LicensedComponent.swift:244-251 | given a complete bundle, every well-known license resolves; a full text exists exactly for Apache and GPL, and it is shown exactly as bundled |
| `Components.CustomYearScenario` | Tests/LicensedComponentsTests/LicensedComponentTests.swift:114-122 | the custom license with short text `"%year% anyway"` and years `"2020-2021"` resolves to `"2020-2021 anyway"` with no full text |
| `Components.HashableScenario` | Tests/LicensedComponentsTests/LicensedComponentTests.swift:24-36 | with the shipped files present, two components built from the same arguments are equal and hash equal after one has filled both its caches |
| `Components.UpdateScenario` | Tests/LicensedComponentsTests/LicensedComponentTests.swift:47-57 | after the update hook, an Apache component has its resolved texts cached |
| `Components.CustomLicenseScenario` | Tests/LicensedComponentsTests/LicensedComponentTests.swift:102-112 | a custom license reports its title, and two reads return its texts unchanged |
| `Components.TextResolvingScenario` | Tests/LicensedComponentsTests/LicensedComponentTests.swift:114-122 | resolving the custom component gives `"2020-2021 anyway"`, with no `%year%` left |

## Left out

- Reading `short.txt`/`full.txt` from `Bundle.module` with `String(contentsOf:encoding:)` is file I/O. The bundle is a map from path to contents instead.
- The `fatalError` on a failed load is modelled as an `Err` result that leaves the cache empty. What happens to the process afterwards is not modelled.
- The force-unwrapped lookup of the `BundledLicenseTexts` directory URL is not modelled. Paths are relative to that directory.
- Swift's `Hasher` is not modelled. The hasher is any function of what `hash(into:)` feeds it: the license, then the details, in that order.
- `id` (`Identifiable`) is not modelled. It returns the component itself, so its identity is the component's equality.
- Thread safety of the lazy initialisation is not modelled. The source does no synchronisation.
- `Sendable` conformances have no effect on the model.
- Components.Equal, Components.HashValue, Replace.ReplaceAll: strings are compared as sequences of code points everywhere (equality, hashing and search). Swift compares strings by canonical equivalence, so `"Café"` and `"Cafe\u{301}"` are equal there and different here, and Foundation's search matches only on composed-character boundaries, so it leaves the `%year%` in `"%year%\u{301}"` in place while `ReplaceAll` replaces it.
- An empty search pattern makes `ReplaceAll` return its input. Resolution only ever searches for the three non-empty tokens.
- The view layer (`Sources/LicensedComponentsUI`) and the package manifests are not part of this model.
- Non-empty bundled texts depend on the shipped files, not on the code. `Licenses.Packaged` assumes them.

# neos-setup image handling and health checks, in Dafny

This project models the part of the Neos setup package that decides which image library
(Imagine driver) Neos can use, and the health checks the setup tool shows:

- **Image handler probe** (`ImageHandlerService`): for each driver in a fixed
  worst-to-best list (Gd, Gmagick, Imagick, Vips as an extension, Vips over FFI) it
  collects, in discovery order, why the driver cannot be used. The reasons are a missing
  PHP extension, an unavailable Imagine driver, ini settings that do not match, and sample
  images (jpg, gif, png) the driver fails to load. A driver is ready when it has no reason.
  Sample images are tried only when nothing failed before.
- **Diagnostics collection** (`ImageHandlerDiagnosticsCollection`): ready and unavailable
  counts, the distinct driver names in order of first occurrence, "ready under this name",
  and the preferred driver, which is the last ready entry.
- **Legacy wizard step** (`NeosSpecificRequirementsStep`): it walks gd, gmagick and
  imagick, reports each as installed, lacking some formats, or not installed, and selects
  the last extension that opens all three test images.
- **Health checks**: content repository set up (`CrHealthcheck`), site present or
  importable (`SiteHealthcheck`), configured image driver equal to the preferred one
  (`ImageHandlerHealthcheck`), and at least one user (`UserHealthcheck`).

Everything the PHP code asks of its host becomes a function-valued field of a `Host`
value or a parameter:

- `extension_loaded` and `ini_get`;
- Imagine's `isDriverAvailable`, `load` and `open`;
- `file_exists`;
- the repositories' counts, the package manager and the configuration.

Status messages are strings. The probe's status details are structured `Reason` values;
`ImageHandlerTypes.ReasonText` renders them as the PHP text. The loops of
`ImageHandlerService`, `NeosSpecificRequirementsStep` and `SiteHealthcheck` are `method`s
with loop invariants:

- the filter loops are proved equal to recursive functions: `FormatReasons`,
  `UnsupportedFormats` and `ImportablePackages`;
- the probe loop is proved equal to `Probe`, one `Diagnose` per descriptor;
- `BuildForm` is characterised position by position through `StatusOf`, and its selection
  through `LastSuitableAt`.

The lemmas are stated about those functions. The first-failure `foreach` of
`CrHealthcheck` and the collection's `array_filter`, `array_map` and `array_unique` are
recursive functions. Specification functions without a contract of their own have no row
below; the rows of the lemmas about them cover them:

- `ExtensionReasons`, `AvailabilityReasons`, `ConfigurationReasons`, `RequirementReasons`
  and `FormatReasons` in `ImageHandlerService`;
- `UnsupportedFormats` and `StatusOf` in `NeosSpecificRequirementsStep`;
- `ReadyItems`, `UnavailableItems`, `ReadyItemsNamed` and `UniqueAfter` in
  `ImageHandlerDiagnosticsCollection`;
- `ImportablePackages` in `SiteHealthcheck`.

The supporting modules are:

- `Wrappers`: `Option`;
- `PhpStrings`: `ucfirst`, `implode`, `?:` and substring search;
- `Sequences`: subsequence, no duplicates and first index.

The image health check calls `getPreferredImageHandler()`, which `ImageHandlerService.php`
does not define. The model takes the preferred driver name as an input and relates it to
`ImageHandlerDiagnosticsCollection.PreferredDriverName`, the only "preferred" query the
code has.

## Model

| member | source | states |
|---|---|---|
| ImageHandlerTypes.ReasonText | Classes/Infrastructure/ImageHandler/ImageHandlerService.php:103-146 | every status line names the extension, driver, ini key or format it is about; a mismatch line carries the value `ini_get` returned and the `echo key=value >> php.ini` fix; a format line carries the exception message |
| ImageHandlerDiagnosticsCollection.DriverNameList | Classes/Infrastructure/ImageHandler/ImageHandlerDiagnosticsCollection.php:40-43 | `array_map` yields each item's driver name at the item's position |
| ImageHandlerDiagnosticsCollection.ReadyCount | Classes/Infrastructure/ImageHandler/ImageHandlerDiagnosticsCollection.php:25-28 | the count equals the number of positions holding a ready item and never exceeds the number of items |
| ImageHandlerDiagnosticsCollection.UnavailableCount | Classes/Infrastructure/ImageHandler/ImageHandlerDiagnosticsCollection.php:30-33 | ready count plus unavailable count is the number of items |
| ImageHandlerDiagnosticsCollection.DriverNames | Classes/Infrastructure/ImageHandler/ImageHandlerDiagnosticsCollection.php:38-44 | no name twice; a name is listed iff some item has it; names appear in order of first occurrence |
| ImageHandlerDiagnosticsCollection.IsReady | Classes/Infrastructure/ImageHandler/ImageHandlerDiagnosticsCollection.php:46-54 | true iff at least one item of that name is ready, whatever other items of that name say |
| ImageHandlerDiagnosticsCollection.PreferredDriverName | Classes/Infrastructure/ImageHandler/ImageHandlerDiagnosticsCollection.php:56-66 | "" when nothing is ready; otherwise the name of the last ready item, with PHP's `?:` turning a falsy name into "" |
| ImageHandlerDiagnosticsCollection.ReadyItemsCardinality | Classes/Infrastructure/ImageHandler/ImageHandlerDiagnosticsCollection.php:25-28 | filtering for ready items keeps exactly one item per ready position |
| ImageHandlerDiagnosticsCollection.ReadyAndUnavailablePartition | Classes/Infrastructure/ImageHandler/ImageHandlerDiagnosticsCollection.php:25-33 | the ready and the not-ready filters split the items between them |
| ImageHandlerDiagnosticsCollection.ReadyItemsNamedEmpty | Classes/Infrastructure/ImageHandler/ImageHandlerDiagnosticsCollection.php:51-54 | the name-and-ready filter is empty iff no item of that name is ready |
| ImageHandlerDiagnosticsCollection.LastOfReadyItems | Classes/Infrastructure/ImageHandler/ImageHandlerDiagnosticsCollection.php:61-65 | the last element of the ready filter (`end()`) is the last ready item |
| ImageHandlerDiagnosticsCollection.LastReadyExists | Classes/Infrastructure/ImageHandler/ImageHandlerDiagnosticsCollection.php:56-66 | if some item is ready, a last ready item exists |
| ImageHandlerDiagnosticsCollection.UniqueAfterElements | Classes/Infrastructure/ImageHandler/ImageHandlerDiagnosticsCollection.php:40-43 | `array_unique` keeps exactly the values not seen before |
| ImageHandlerDiagnosticsCollection.UniqueAfterNoDuplicates | Classes/Infrastructure/ImageHandler/ImageHandlerDiagnosticsCollection.php:40-43 | `array_unique` leaves no duplicates |
| ImageHandlerDiagnosticsCollection.UniqueAfterFirstOccurrenceOrder | Classes/Infrastructure/ImageHandler/ImageHandlerDiagnosticsCollection.php:40-43 | `array_unique` keeps first occurrences, in their original order |
| ImageHandlerDiagnosticsCollection.PreferredDriverIsReady | Classes/Infrastructure/ImageHandler/ImageHandlerDiagnosticsCollection.php:46-66 | a non-empty preferred name is a ready driver under `isReady` |
| ImageHandlerDiagnosticsCollection.PreferredEmptyIffNoneReady | Classes/Infrastructure/ImageHandler/ImageHandlerDiagnosticsCollection.php:56-66 | with names PHP does not treat as falsy, the preference is "" iff the ready count is 0 |
| ImageHandlerDiagnosticsCollection.WorstPreferredOnlyAlone | Classes/Infrastructure/ImageHandler/ImageHandlerDiagnosticsCollection.php:56-66 | the first (worst) entry, if its name is unique, is preferred iff it is the only ready entry |
| ImageHandlerDiagnosticsCollection.EmptyCollection | Classes/Infrastructure/ImageHandler/ImageHandlerDiagnosticsCollection.php:25-66 | an empty collection has no counts and no names, prefers "" and calls nothing ready |
| ImageHandlerService.IniSatisfied | Classes/Infrastructure/ImageHandler/ImageHandlerService.php:111-116 | an ini value matches iff it equals the expected string, or it is "1" and "true" is expected |
| ImageHandlerService.Diagnose | Classes/Infrastructure/ImageHandler/ImageHandlerService.php:101-131 | keeps the descriptor; ready iff no details; formats are tried only when there is no extension, driver or configuration reason |
| ImageHandlerService.Probe | Classes/Infrastructure/ImageHandler/ImageHandlerService.php:97-134 | one diagnostics entry per descriptor, in descriptor order |
| ImageHandlerService.FindUnsupportedImageFormats | Classes/Infrastructure/ImageHandler/ImageHandlerService.php:136-147 | appends to the caller's reasons one reason per sample image the driver fails to load, in jpg, gif, png order |
| ImageHandlerService.DetermineAvailabilityForImageHandlers | Classes/Infrastructure/ImageHandler/ImageHandlerService.php:97-134 | the nested loops build exactly the probe's diagnostics |
| ImageHandlerService.ConfigurationReasonsCount | Classes/Infrastructure/ImageHandler/ImageHandlerService.php:110-121 | exactly one reason per unsatisfied ini key |
| ImageHandlerService.ConfigurationReasonsStage | Classes/Infrastructure/ImageHandler/ImageHandlerService.php:110-121 | the configuration loop yields only configuration-mismatch reasons |
| ImageHandlerService.ConfigurationMismatchIff | Classes/Infrastructure/ImageHandler/ImageHandlerService.php:110-121 | a mismatch reason (key, expected, raw `ini_get` value) is reported iff that pair is required and the raw value does not satisfy it |
| ImageHandlerService.ConfigurationReasonsInOrder | Classes/Infrastructure/ImageHandler/ImageHandlerService.php:110-121 | mismatches appear in the declared order of the keys |
| ImageHandlerService.FormatReasonsCount | Classes/Infrastructure/ImageHandler/ImageHandlerService.php:140-146 | exactly one reason per sample image whose load throws |
| ImageHandlerService.FormatReasonsStage | Classes/Infrastructure/ImageHandler/ImageHandlerService.php:140-146 | the format loop yields only format reasons |
| ImageHandlerService.FormatNotSupportedIff | Classes/Infrastructure/ImageHandler/ImageHandlerService.php:140-146 | a format reason with a message is reported iff loading that format's test file threw with that message |
| ImageHandlerService.FormatReasonsInOrder | Classes/Infrastructure/ImageHandler/ImageHandlerService.php:140-146 | format reasons appear in jpg, gif, png order |
| ImageHandlerService.ExtensionReason | Classes/Infrastructure/ImageHandler/ImageHandlerService.php:103-105 | the missing-extension reason appears iff an extension is required and not loaded; it then comes first and makes the entry not ready |
| ImageHandlerService.ReasonsInDiscoveryOrder | Classes/Infrastructure/ImageHandler/ImageHandlerService.php:101-125 | details are ordered extension, driver, configuration, format |
| ImageHandlerService.ReadyIff | Classes/Infrastructure/ImageHandler/ImageHandlerService.php:101-131 | ready iff the extension is loaded or none is needed, the driver is available, every ini value matches and every sample image loads |
| ImageHandlerService.SupportedDriverNames | Classes/Infrastructure/ImageHandler/ImageHandlerService.php:55-94 | the probe's distinct driver names are Gd, Gmagick, Imagick, Vips, on every host |
| ImageHandlerService.VipsPreferredWhenReady | Classes/Infrastructure/ImageHandler/ImageHandlerService.php:54-94 | a ready FFI Vips entry makes Vips the preferred driver |
| ImageHandlerService.GdPreferredOnlyAsLastResort | Classes/Infrastructure/ImageHandler/ImageHandlerService.php:54-94 | Gd is preferred iff it is ready and no other entry is |
| ImageHandlerService.ScenarioOnlyImagickLoaded | Classes/Infrastructure/ImageHandler/ImageHandlerService.php:97-134 | with only imagick loaded, Gd reports the missing extension, Imagick is ready and preferred, and the counts are 1 and 1 |
| NeosSpecificRequirementsStep.FindUnsupportedImageFormats | Classes/Step/NeosSpecificRequirementsStep.php:129-148 | the loop returns the quoted formats the driver cannot open, in jpg, gif, png order |
| NeosSpecificRequirementsStep.BuildForm | Classes/Step/NeosSpecificRequirementsStep.php:88-121 | one status per candidate; nothing selected iff no candidate is suitable; otherwise the last suitable candidate is selected and the hidden driver field is its `ucfirst` |
| NeosSpecificRequirementsStep.UnsupportedFormatsSpec | Classes/Step/NeosSpecificRequirementsStep.php:135-145 | a quoted format is reported iff the driver cannot open it, and reports keep the format order |
| NeosSpecificRequirementsStep.ImagickWinsWhenSuitable | Classes/Step/NeosSpecificRequirementsStep.php:88-121 | a suitable imagick is selected, as driver Imagick, whatever gd and gmagick do |
| CrHealthcheck.FirstMissingRepository | Classes/Infrastructure/Healthcheck/CrHealthcheck.php:51-60 | none iff every identifier has its events table; otherwise the first identifier without one |
| CrHealthcheck.Execute | Classes/Infrastructure/Healthcheck/CrHealthcheck.php:28-76 | error without repositories; OK iff every events table exists; never a warning; an error names the first repository missing its table; the OK text shows the identifiers only when technical details may leak |
| SiteHealthcheck.SiteExistsHealth | Classes/Infrastructure/Healthcheck/SiteHealthcheck.php:39-50 | OK; inside an HTTP request the message links the root and the login URL, otherwise it points at /neos |
| SiteHealthcheck.NoSiteHealth | Classes/Infrastructure/Healthcheck/SiteHealthcheck.php:61-87 | always a warning; without importable packages it suggests kickstarting iff the kickstarter is available, else installing it; one package gives its import command; several are listed joined by ", " |
| SiteHealthcheck.Execute | Classes/Infrastructure/Healthcheck/SiteHealthcheck.php:35-88 | OK iff a site exists; otherwise the warning is built from the packages whose Sites.xml exists |
| SiteHealthcheck.ImportablePackagesSpec | Classes/Infrastructure/Healthcheck/SiteHealthcheck.php:53-59 | a package is offered iff it is a site package whose Sites.xml exists, in package-manager order |
| ImageHandlerHealthcheck.Execute | Classes/Infrastructure/Healthcheck/ImageHandlerHealthcheck.php:33-57 | error when no driver is configured (PHP-falsy); otherwise OK iff the configured driver is the preferred one, and a warning iff it is not |
| ImageHandlerHealthcheck.PreferredNotConsultedWhenUnconfigured | Classes/Infrastructure/Healthcheck/ImageHandlerHealthcheck.php:40-46 | without a configured driver the preference does not affect the result |
| ImageHandlerHealthcheck.OkMeansConfiguredDriverReady | Classes/Infrastructure/Healthcheck/ImageHandlerHealthcheck.php:46-56 | with the collection's preferred name, OK means the configured driver is ready and is the last ready entry |
| UserHealthcheck.Execute | Classes/Infrastructure/Healthcheck/UserHealthcheck.php:30-40 | error iff there is no user, and its message contains the `user:create` command; OK iff there is a user |

## Left out

- Host access (`extension_loaded`, `ini_get`, `php_ini_loaded_file`, Imagine, `file_exists`, repositories, package manager, configuration, database schema) is not modelled; each becomes a parameter or a `Host` field.
- The `ImagineFactory` instantiation hack in the service constructor is left out. So are exceptions thrown outside the `try` blocks (`createDriver`, `create`, `injectSettings`, `getPackage`), which end the request rather than produce a result.
- Throwables that are not an `\Exception` are left out. An `\Error` raised while loading or opening a test image passes the `catch (\Exception)` blocks and ends the request. The `load` and `opens` host functions stand only for success or a caught exception; an `\Exception` from an unreadable test image is one of those.
- `ImageHandlerTypes.ReasonText`: writes `PHP_EOL` as "\n"; on Windows PHP prints "\r\n".
- `getPreferredImageHandler()` is called by the image health check but not defined in `ImageHandlerService.php`; the preferred driver name is an input.
- `ImageHandlerHealthcheck.Execute`: models the configured driver as an optional string; other setting types are not modelled.
- `requiredPhpConfiguration` is a sequence of pairs, so the model admits duplicate keys that a PHP array cannot hold. PHP's conversion of numeric-string keys to integers is not modelled.
- `ImageHandlerDiagnosticsCollection.PreferredDriverName`: when nothing is ready, `end()` returns `false`. `?->` short-circuits only on `null`, so reading `descriptor` on `false` raises PHP 8's "Attempt to read property on bool" warning before `?: ''` yields ''. The model returns "" with no warning. Where warnings become exceptions, the PHP call throws instead, and this also applies to `EmptyCollection` and to the "none ready" half of `PreferredEmptyIffNoneReady`.
- `NeosSpecificRequirementsStep.BuildForm`: form pages, labels, CSS classes and the static info texts become an `ExtensionStatus` per candidate plus the selected extension. `postProcessFormValues` (writing the setting) is not modelled. Neither is the `injectSettings(['driver' => ...])` call on the shared `ImagineFactory` for every loaded candidate, which leaves the factory set to the last loaded extension tried, not necessarily the selected one.
- `SiteHealthcheck.SiteExistsHealth`: URI building (`withPath`, `withQuery`, `withFragment`) is not modelled; the root and login URLs are inputs. The contract states that both links appear, not the whole wording.
- `SiteHealthcheck.NoSiteHealth`: for one or more importable packages the contract states the command or list the message carries, not the whole wording.
- `CrHealthcheck.Execute`: the exception for a missing schema manager is not modelled, and identifiers are strings, not PHP array keys.
- `getIterator` of the collection is the `items` field; `fromBootstrap` factories, titles beyond constants, `SiteImportStep`, `AdministratorStep` and `SetupCommandController` are not part of this model.

/**
 * The image-handler readiness probe. For every descriptor of the fixed worst-to-best
 * list it gathers, in discovery order, the reasons why the driver cannot be used; a
 * descriptor is ready when there are none. The PHP host (loaded extensions, Imagine's
 * driver availability, ini settings, decoding of the sample images) is a parameter.
 */
module ImageHandlerService {
  import opened Wrappers
  import opened PhpStrings
  import opened Sequences
  import opened ImageHandlerTypes
  import opened ImageHandlerDiagnosticsCollection

  /** What `$imagine->load(...)` did with one sample image. */
  datatype LoadOutcome = Loaded | Thrown(message: string)

  /** The host facts the probe reads; every driver name is passed through `ucfirst` first. */
  datatype Host = Host(
    extensionLoaded: string -> bool,
    isDriverAvailable: string -> bool,
    iniGet: string -> Option<string>,
    load: (string, string) -> LoadOutcome)

  /** Sample formats and their test images, in the order they are tried. */
  const RequiredImageFormats: seq<(string, string)> := [
    ("jpg", "resource://Neos.Neos/Private/Installer/TestImages/Test.jpg"),
    ("gif", "resource://Neos.Neos/Private/Installer/TestImages/Test.gif"),
    ("png", "resource://Neos.Neos/Private/Installer/TestImages/Test.png")
  ]

  /**
   * The supported drivers, sorted from worst-fitting to best-fitting: the last ready
   * entry is the preferred one. Vips is listed twice, once per installation mode.
   */
  const SupportedImageHandlersByPreference: seq<Descriptor> := [
    Descriptor("Gd", "GD Library - generally slow, not recommended in production", "gd", []),
    Descriptor("Gmagick", "- Gmagick php module", "gmagick", []),
    Descriptor("Imagick", "- ImageMagick php module", "imagick", []),
    Descriptor("Vips",
      "(legacy Extension Mode) - fast and memory efficient, needs rokka/imagine-vips + jcupitt/vips:^1.0",
      "vips", []),
    Descriptor("Vips",
      "(future-proof FFI mode) - fast and memory efficient, needs rokka/imagine-vips and FFI enabled",
      "", [("ffi.enable", "true"), ("zend.max_allowed_stack_size", "-1")])
  ]

  // ----- specification of one probe -----

  /**
   * An ini value satisfies an expectation when it is exactly the expected string, with
   * `ini_get` returning "1" accepted for an expected "true".
   */
  function IniSatisfied(expected: string, actual: Option<string>): (ok: bool)
    ensures ok <==> actual == Some(expected) || (expected == "true" && actual == Some("1"))
  {
    var normalised := if expected == "true" && actual == Some("1") then Some("true") else actual;
    normalised == Some(expected)
  }

  function ExtensionReasons(d: Descriptor, host: Host): seq<Reason>
  {
    if d.requiredPhpExtension != "" && !host.extensionLoaded(d.requiredPhpExtension)
    then [ExtensionNotLoaded(d.requiredPhpExtension)]
    else []
  }

  function AvailabilityReasons(d: Descriptor, host: Host): seq<Reason>
  {
    if !host.isDriverAvailable(Ucfirst(d.driverName)) then [DriverNotAvailable(d.driverName)] else []
  }

  /** One mismatch reason per unsatisfied ini key, in declared order. */
  function ConfigurationReasons(configuration: seq<(string, string)>, host: Host): seq<Reason>
  {
    if configuration == [] then []
    else
      var (key, expected) := configuration[|configuration| - 1];
      var actual := host.iniGet(key);
      ConfigurationReasons(configuration[..|configuration| - 1], host)
      + (if IniSatisfied(expected, actual) then [] else [ConfigurationMismatch(key, expected, actual)])
  }

  /** Everything found before any sample image is decoded. */
  function RequirementReasons(d: Descriptor, host: Host): seq<Reason>
  {
    ExtensionReasons(d, host) + AvailabilityReasons(d, host)
    + ConfigurationReasons(d.requiredPhpConfiguration, host)
  }

  /** One reason per sample image the driver fails to load, in the order of `formats`. */
  function FormatReasons(driver: string, formats: seq<(string, string)>, host: Host): seq<Reason>
  {
    if formats == [] then []
    else
      var (format, testFile) := formats[|formats| - 1];
      var outcome := host.load(Ucfirst(driver), testFile);
      FormatReasons(driver, formats[..|formats| - 1], host)
      + (if outcome.Thrown? then [FormatNotSupported(format, outcome.message)] else [])
  }

  /** The diagnostics of one descriptor; sample images are tried only if nothing failed before. */
  function Diagnose(d: Descriptor, host: Host): (r: Diagnostics)
    ensures r.descriptor == d
    ensures r.isReady <==> r.statusDetails == []
    ensures RequirementReasons(d, host) != [] ==> r.statusDetails == RequirementReasons(d, host)
    ensures RequirementReasons(d, host) == [] ==>
      r.statusDetails == FormatReasons(d.driverName, RequiredImageFormats, host)
  {
    var requirements := RequirementReasons(d, host);
    var details := if |requirements| == 0
      then requirements + FormatReasons(d.driverName, RequiredImageFormats, host)
      else requirements;
    Diagnostics(d, |details| == 0, details)
  }

  /** The probe over a descriptor list: one diagnostics entry per descriptor, in order. */
  function Probe(descriptors: seq<Descriptor>, host: Host): (items: seq<Diagnostics>)
    ensures |items| == |descriptors|
    ensures forall i :: 0 <= i < |items| ==> items[i].descriptor == descriptors[i]
  {
    seq(|descriptors|, i requires 0 <= i < |descriptors| => Diagnose(descriptors[i], host))
  }

  // ----- the imperative probe -----

  /** Appends to `unsupportedBecause` one reason per sample format the driver cannot load. */
  method FindUnsupportedImageFormats(driver: string, host: Host, unsupportedBecause: seq<Reason>)
    returns (extended: seq<Reason>)
    ensures extended == unsupportedBecause + FormatReasons(driver, RequiredImageFormats, host)
  {
    var imagine := Ucfirst(driver);
    extended := unsupportedBecause;
    for i := 0 to |RequiredImageFormats|
      invariant extended == unsupportedBecause + FormatReasons(driver, RequiredImageFormats[..i], host)
    {
      var (imageFormat, testFile) := RequiredImageFormats[i];
      var outcome := host.load(imagine, testFile);
      if outcome.Thrown? {
        extended := extended + [FormatNotSupported(imageFormat, outcome.message)];
      }
      assert RequiredImageFormats[..i + 1][..i] == RequiredImageFormats[..i];
    }
    assert RequiredImageFormats[..|RequiredImageFormats|] == RequiredImageFormats;
  }

  /** Probes every descriptor in turn and collects the diagnostics in descriptor order. */
  method DetermineAvailabilityForImageHandlers(descriptors: seq<Descriptor>, host: Host)
    returns (collection: DiagnosticsCollection)
    ensures collection.items == Probe(descriptors, host)
  {
    var imageHandlerDiagnostics: seq<Diagnostics> := [];
    for n := 0 to |descriptors|
      invariant |imageHandlerDiagnostics| == n
      invariant forall i :: 0 <= i < n ==> imageHandlerDiagnostics[i] == Diagnose(descriptors[i], host)
    {
      var handler := descriptors[n];
      var unsupportedBecause: seq<Reason> := [];
      if handler.requiredPhpExtension != "" && !host.extensionLoaded(handler.requiredPhpExtension) {
        unsupportedBecause := unsupportedBecause + [ExtensionNotLoaded(handler.requiredPhpExtension)];
      }
      if !host.isDriverAvailable(Ucfirst(handler.driverName)) {
        unsupportedBecause := unsupportedBecause + [DriverNotAvailable(handler.driverName)];
      }
      ghost var before := unsupportedBecause;
      assert before == ExtensionReasons(handler, host) + AvailabilityReasons(handler, host);
      var configuration := handler.requiredPhpConfiguration;
      for k := 0 to |configuration|
        invariant unsupportedBecause == before + ConfigurationReasons(configuration[..k], host)
      {
        var (key, expectedValue) := configuration[k];
        var actual := host.iniGet(key);
        if expectedValue == "true" && actual == Some("1") {
          actual := Some("true");
        }
        if Some(expectedValue) != actual {
          unsupportedBecause := unsupportedBecause + [ConfigurationMismatch(key, expectedValue, host.iniGet(key))];
        }
        assert configuration[..k + 1][..k] == configuration[..k];
      }
      assert configuration[..|configuration|] == configuration;
      if |unsupportedBecause| == 0 {
        unsupportedBecause := FindUnsupportedImageFormats(handler.driverName, host, unsupportedBecause);
      }
      imageHandlerDiagnostics := imageHandlerDiagnostics
        + [Diagnostics(handler, |unsupportedBecause| == 0, unsupportedBecause)];
    }
    collection := DiagnosticsCollection(imageHandlerDiagnostics);
  }

  // ----- properties of the probe -----

  /** The ini keys (or format names) of a `[key => value]` list, in declared order. */
  function Keys(entries: seq<(string, string)>): (keys: seq<string>)
    ensures |keys| == |entries|
    ensures forall i :: 0 <= i < |entries| ==> keys[i] == entries[i].0
  {
    if entries == [] then [] else Keys(entries[..|entries| - 1]) + [entries[|entries| - 1].0]
  }

  function MismatchPositions(configuration: seq<(string, string)>, host: Host): set<int>
  {
    set i | 0 <= i < |configuration| && !IniSatisfied(configuration[i].1, host.iniGet(configuration[i].0))
  }

  function FailingFormatPositions(driver: string, formats: seq<(string, string)>, host: Host): set<int>
  {
    set i | 0 <= i < |formats| && host.load(Ucfirst(driver), formats[i].1).Thrown?
  }

  /** Each unsatisfied ini key contributes exactly one reason. */
  lemma {:induction false} ConfigurationReasonsCount(configuration: seq<(string, string)>, host: Host)
    ensures |ConfigurationReasons(configuration, host)| == |MismatchPositions(configuration, host)|
  {
    if configuration != [] {
      var n := |configuration| - 1;
      var init := configuration[..n];
      ConfigurationReasonsCount(init, host);
      if IniSatisfied(configuration[n].1, host.iniGet(configuration[n].0)) {
        assert MismatchPositions(configuration, host) == MismatchPositions(init, host);
      } else {
        assert MismatchPositions(configuration, host) == MismatchPositions(init, host) + {n};
      }
    }
  }

  lemma {:induction false} ConfigurationReasonsStage(configuration: seq<(string, string)>, host: Host)
    ensures forall r :: r in ConfigurationReasons(configuration, host) ==> Stage(r) == 2
  {
    if configuration != [] {
      ConfigurationReasonsStage(configuration[..|configuration| - 1], host);
    }
  }

  /** A mismatch reason names the key, the expected value and what `ini_get` returned. */
  lemma {:induction false} ConfigurationMismatchIff(configuration: seq<(string, string)>, host: Host,
                                                   key: string, expected: string, actual: Option<string>)
    ensures ConfigurationMismatch(key, expected, actual) in ConfigurationReasons(configuration, host) <==>
      (key, expected) in configuration && actual == host.iniGet(key) && !IniSatisfied(expected, actual)
  {
    if configuration != [] {
      var n := |configuration| - 1;
      var init := configuration[..n];
      ConfigurationMismatchIff(init, host, key, expected, actual);
      assert configuration == init + [configuration[n]];
      assert (key, expected) in configuration <==> (key, expected) in init || (key, expected) == configuration[n];
    }
  }

  /** The mismatch reasons follow the declared order of the ini keys. */
  lemma {:induction false} ConfigurationReasonsInOrder(configuration: seq<(string, string)>, host: Host)
    ensures IsSubsequence(Subjects(ConfigurationReasons(configuration, host)), Keys(configuration))
  {
    if configuration != [] {
      var n := |configuration| - 1;
      var init := configuration[..n];
      var before := ConfigurationReasons(init, host);
      ConfigurationReasonsInOrder(init, host);
      assert Keys(configuration) == Keys(init) + [configuration[n].0];
      var (key, expected) := configuration[n];
      if IniSatisfied(expected, host.iniGet(key)) {
        assert ConfigurationReasons(configuration, host) == before;
        SubsequenceExtendRight(Subjects(before), Keys(init), key);
      } else {
        var r := ConfigurationMismatch(key, expected, host.iniGet(key));
        assert (before + [r])[..|before|] == before;
        assert Subjects(before + [r]) == Subjects(before) + [key];
        SubsequenceExtendBoth(Subjects(before), Keys(init), key);
      }
    }
  }

  /** Each sample image the driver fails to load contributes exactly one reason. */
  lemma {:induction false} FormatReasonsCount(driver: string, formats: seq<(string, string)>, host: Host)
    ensures |FormatReasons(driver, formats, host)| == |FailingFormatPositions(driver, formats, host)|
  {
    if formats != [] {
      var n := |formats| - 1;
      var init := formats[..n];
      FormatReasonsCount(driver, init, host);
      if host.load(Ucfirst(driver), formats[n].1).Thrown? {
        assert FailingFormatPositions(driver, formats, host) == FailingFormatPositions(driver, init, host) + {n};
      } else {
        assert FailingFormatPositions(driver, formats, host) == FailingFormatPositions(driver, init, host);
      }
    }
  }

  lemma {:induction false} FormatReasonsStage(driver: string, formats: seq<(string, string)>, host: Host)
    ensures forall r :: r in FormatReasons(driver, formats, host) ==> Stage(r) == 3
  {
    if formats != [] {
      FormatReasonsStage(driver, formats[..|formats| - 1], host);
    }
  }

  /**
   * A format reason names a sample format whose image threw, with the exception's message;
   * a failure does not stop the remaining formats from being tried.
   */
  lemma {:induction false} FormatNotSupportedIff(driver: string, formats: seq<(string, string)>, host: Host,
                                                format: string, message: string)
    ensures FormatNotSupported(format, message) in FormatReasons(driver, formats, host) <==>
      exists i :: 0 <= i < |formats| && formats[i].0 == format
        && host.load(Ucfirst(driver), formats[i].1) == Thrown(message)
  {
    if formats != [] {
      var n := |formats| - 1;
      var init := formats[..n];
      FormatNotSupportedIff(driver, init, host, format, message);
      if exists i :: 0 <= i < |formats| && formats[i].0 == format
                     && host.load(Ucfirst(driver), formats[i].1) == Thrown(message) {
        var i :| 0 <= i < |formats| && formats[i].0 == format
                 && host.load(Ucfirst(driver), formats[i].1) == Thrown(message);
        if i < n {
          assert init[i] == formats[i];
        }
      }
      if FormatNotSupported(format, message) in FormatReasons(driver, init, host) {
        var i :| 0 <= i < |init| && init[i].0 == format && host.load(Ucfirst(driver), init[i].1) == Thrown(message);
        assert formats[i] == init[i];
      }
    }
  }

  /** The format reasons follow the order jpg, gif, png of the sample images. */
  lemma {:induction false} FormatReasonsInOrder(driver: string, formats: seq<(string, string)>, host: Host)
    ensures IsSubsequence(Subjects(FormatReasons(driver, formats, host)), Keys(formats))
  {
    if formats != [] {
      var n := |formats| - 1;
      var init := formats[..n];
      var before := FormatReasons(driver, init, host);
      FormatReasonsInOrder(driver, init, host);
      assert Keys(formats) == Keys(init) + [formats[n].0];
      var (format, testFile) := formats[n];
      var outcome := host.load(Ucfirst(driver), testFile);
      if outcome.Thrown? {
        var r := FormatNotSupported(format, outcome.message);
        assert (before + [r])[..|before|] == before;
        assert Subjects(before + [r]) == Subjects(before) + [format];
        SubsequenceExtendBoth(Subjects(before), Keys(init), format);
      } else {
        assert FormatReasons(driver, formats, host) == before;
        SubsequenceExtendRight(Subjects(before), Keys(init), format);
      }
    }
  }

  /** A driver is unusable through a missing extension exactly when the reason says so. */
  lemma ExtensionReason(d: Descriptor, host: Host)
    ensures var details := Diagnose(d, host).statusDetails;
      && (ExtensionNotLoaded(d.requiredPhpExtension) in details <==>
            d.requiredPhpExtension != "" && !host.extensionLoaded(d.requiredPhpExtension))
      && (forall e :: ExtensionNotLoaded(e) in details ==> e == d.requiredPhpExtension)
      && (d.requiredPhpExtension != "" && !host.extensionLoaded(d.requiredPhpExtension) ==>
            !Diagnose(d, host).isReady && details[0] == ExtensionNotLoaded(d.requiredPhpExtension))
  {
    ConfigurationReasonsStage(d.requiredPhpConfiguration, host);
    FormatReasonsStage(d.driverName, RequiredImageFormats, host);
  }

  /**
   * The reasons come in discovery order: extension, driver availability, configuration
   * keys, sample formats.
   */
  lemma ReasonsInDiscoveryOrder(d: Descriptor, host: Host)
    ensures var details := Diagnose(d, host).statusDetails;
      forall i, j :: 0 <= i < j < |details| ==> Stage(details[i]) <= Stage(details[j])
  {
    var ext, avail := ExtensionReasons(d, host), AvailabilityReasons(d, host);
    var config := ConfigurationReasons(d.requiredPhpConfiguration, host);
    var formats := FormatReasons(d.driverName, RequiredImageFormats, host);
    ConfigurationReasonsStage(d.requiredPhpConfiguration, host);
    FormatReasonsStage(d.driverName, RequiredImageFormats, host);
    var details := Diagnose(d, host).statusDetails;
    var requirements := ext + avail + config;
    forall i, j | 0 <= i < j < |details|
      ensures Stage(details[i]) <= Stage(details[j])
    {
      if details == requirements {
        if i < |ext| + |avail| && j < |ext| + |avail| {
          assert ext != [] ==> details[0] == ext[0];
        } else if j >= |ext| + |avail| {
          assert details[j] == config[j - |ext| - |avail|];
          assert details[j] in config;
          if i >= |ext| + |avail| {
            assert details[i] == config[i - |ext| - |avail|];
            assert details[i] in config;
          }
        }
      } else {
        assert details == formats;
        assert details[i] in formats && details[j] in formats;
      }
    }
  }

  /**
   * A descriptor is ready exactly when its extension (if any) is loaded, Imagine offers the
   * driver, every ini expectation is met and every sample image loads.
   */
  lemma ReadyIff(d: Descriptor, host: Host)
    ensures Diagnose(d, host).isReady <==>
      && (d.requiredPhpExtension == "" || host.extensionLoaded(d.requiredPhpExtension))
      && host.isDriverAvailable(Ucfirst(d.driverName))
      && (forall i :: 0 <= i < |d.requiredPhpConfiguration| ==>
            IniSatisfied(d.requiredPhpConfiguration[i].1, host.iniGet(d.requiredPhpConfiguration[i].0)))
      && (forall i :: 0 <= i < |RequiredImageFormats| ==>
            host.load(Ucfirst(d.driverName), RequiredImageFormats[i].1).Loaded?)
  {
    var cfg := d.requiredPhpConfiguration;
    ConfigurationReasonsCount(cfg, host);
    FormatReasonsCount(d.driverName, RequiredImageFormats, host);
    if ConfigurationReasons(cfg, host) == [] {
      forall i | 0 <= i < |cfg| ensures IniSatisfied(cfg[i].1, host.iniGet(cfg[i].0)) {
        assert i !in MismatchPositions(cfg, host);
      }
    } else {
      var p :| p in MismatchPositions(cfg, host);
    }
    if FormatReasons(d.driverName, RequiredImageFormats, host) == [] {
      forall i | 0 <= i < |RequiredImageFormats|
        ensures host.load(Ucfirst(d.driverName), RequiredImageFormats[i].1).Loaded?
      {
        assert i !in FailingFormatPositions(d.driverName, RequiredImageFormats, host);
      }
    } else {
      var p :| p in FailingFormatPositions(d.driverName, RequiredImageFormats, host);
    }
  }

  /** The supported list names four drivers, Vips once although it has two modes. */
  lemma SupportedDriverNames(host: Host)
    ensures DriverNames(DiagnosticsCollection(Probe(SupportedImageHandlersByPreference, host)))
      == ["Gd", "Gmagick", "Imagick", "Vips"]
  {
    var items := Probe(SupportedImageHandlersByPreference, host);
    var names := DriverNameList(items);
    assert names == ["Gd", "Gmagick", "Imagick", "Vips", "Vips"];
    assert "Vips" != "Gd" && "Vips" != "Gmagick" && "Vips" != "Imagick";
    assert "Imagick" != "Gd" && "Imagick"[0] != "Gmagick"[0] && "Gmagick" != "Gd";
    var seen := {"Gd", "Gmagick", "Imagick"};
    assert UniqueAfter(["Vips"], seen + {"Vips"}) == [];
    assert UniqueAfter(["Vips", "Vips"], seen) == ["Vips"];
    assert ["Imagick", "Vips", "Vips"][1..] == ["Vips", "Vips"];
    assert {"Gd", "Gmagick"} + {"Imagick"} == seen;
    assert UniqueAfter(["Imagick", "Vips", "Vips"], {"Gd", "Gmagick"}) == ["Imagick", "Vips"];
    assert ["Gmagick", "Imagick", "Vips", "Vips"][1..] == ["Imagick", "Vips", "Vips"];
    assert {"Gd"} + {"Gmagick"} == {"Gd", "Gmagick"};
    assert UniqueAfter(["Gmagick", "Imagick", "Vips", "Vips"], {"Gd"}) == ["Gmagick", "Imagick", "Vips"];
    assert names[1..] == ["Gmagick", "Imagick", "Vips", "Vips"];
    assert {} + {"Gd"} == {"Gd"};
  }

  /** A ready FFI-mode Vips, the best-ranked descriptor, is always the preferred driver. */
  lemma VipsPreferredWhenReady(host: Host)
    ensures var c := DiagnosticsCollection(Probe(SupportedImageHandlersByPreference, host));
      c.items[4].isReady ==> PreferredDriverName(c) == "Vips"
  {
    var items := Probe(SupportedImageHandlersByPreference, host);
    if items[4].isReady {
      assert LastReadyAt(items, 4);
    }
  }

  /** Gd, the worst-ranked descriptor, is preferred only when nothing else is ready. */
  lemma GdPreferredOnlyAsLastResort(host: Host)
    ensures var c := DiagnosticsCollection(Probe(SupportedImageHandlersByPreference, host));
      PreferredDriverName(c) == "Gd" <==> c.items[0].isReady && forall i :: 1 <= i < 5 ==> !c.items[i].isReady
  {
    var c := DiagnosticsCollection(Probe(SupportedImageHandlersByPreference, host));
    assert forall j :: 0 <= j < 5 ==> Name(c.items[j]) == SupportedImageHandlersByPreference[j].driverName;
    WorstPreferredOnlyAlone(c);
  }

  /**
   * Two drivers, only `imagick` loaded and everything else in order: Gd is reported with
   * its missing extension, Imagick is ready and preferred.
   */
  lemma ScenarioOnlyImagickLoaded()
    ensures var gd := Descriptor("Gd", "", "gd", []);
      var imagick := Descriptor("Imagick", "", "imagick", []);
      var host := Host(e => e == "imagick", d => true, k => None, (d, f) => Loaded);
      var c := DiagnosticsCollection(Probe([gd, imagick], host));
      && c.items == [Diagnostics(gd, false, [ExtensionNotLoaded("gd")]), Diagnostics(imagick, true, [])]
      && PreferredDriverName(c) == "Imagick"
      && !IsReady(c, "Gd") && IsReady(c, "Imagick")
      && ReadyCount(c) == 1 && UnavailableCount(c) == 1
  {
    var gd := Descriptor("Gd", "", "gd", []);
    var imagick := Descriptor("Imagick", "", "imagick", []);
    var host := Host(e => e == "imagick", d => true, k => None, (d, f) => Loaded);
    var items := Probe([gd, imagick], host);
    ReadyIff(imagick, host);
    assert items[0] == Diagnostics(gd, false, [ExtensionNotLoaded("gd")]);
    assert LastReadyAt(items, 1);
    assert ReadyPositions(items) == {1};
  }
}

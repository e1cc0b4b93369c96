/**
 * The setup wizard's legacy image-driver selection: it looks at gd, gmagick and imagick in
 * that order, tries to open the jpg, gif and png test images with each loaded one, and
 * configures the last extension that is loaded and opens all three.
 */
module NeosSpecificRequirementsStep {
  import opened Wrappers
  import opened PhpStrings
  import opened Sequences

  const CandidateExtensions: seq<string> := ["gd", "gmagick", "imagick"]

  const SampleFormats: seq<string> := ["jpg", "gif", "png"]

  /**
   * `opens(driver, format)`: Imagine, configured with `driver`, opens the test image
   * `Private/Installer/TestImages/Test.<format>` of the Neos package without throwing.
   */
  datatype Host = Host(extensionLoaded: string -> bool, opens: (string, string) -> bool)

  /** What the wizard tells the user about one candidate extension. */
  datatype ExtensionStatus = Installed | LacksSupport(unsupportedFormats: seq<string>) | NotInstalled

  /** The quoted formats the driver cannot open, in the order of `formats`. */
  function UnsupportedFormats(driver: string, formats: seq<string>, host: Host): seq<string>
  {
    if formats == [] then []
    else
      var format := formats[|formats| - 1];
      UnsupportedFormats(driver, formats[..|formats| - 1], host)
      + (if host.opens(Ucfirst(driver), format) then [] else [Quoted(format)])
  }

  /** A candidate the wizard may select: loaded, and every sample format opens. */
  predicate Suitable(extension: string, host: Host)
  {
    host.extensionLoaded(extension) && UnsupportedFormats(extension, SampleFormats, host) == []
  }

  function StatusOf(extension: string, host: Host): ExtensionStatus
  {
    if !host.extensionLoaded(extension) then NotInstalled
    else if UnsupportedFormats(extension, SampleFormats, host) == [] then Installed
    else LacksSupport(UnsupportedFormats(extension, SampleFormats, host))
  }

  /** Position `k` holds the last suitable candidate. */
  predicate LastSuitableAt(candidates: seq<string>, host: Host, k: int)
  {
    0 <= k < |candidates| && Suitable(candidates[k], host)
    && forall j :: k < j < |candidates| ==> !Suitable(candidates[j], host)
  }

  /** Tries every sample format; a failing one is recorded and the next is still tried. */
  method FindUnsupportedImageFormats(driver: string, host: Host) returns (unsupportedFormats: seq<string>)
    ensures unsupportedFormats == UnsupportedFormats(driver, SampleFormats, host)
  {
    var imagine := Ucfirst(driver);
    unsupportedFormats := [];
    for i := 0 to |SampleFormats|
      invariant unsupportedFormats == UnsupportedFormats(driver, SampleFormats[..i], host)
    {
      var imageFormat := SampleFormats[i];
      if !host.opens(imagine, imageFormat) {
        unsupportedFormats := unsupportedFormats + [Quoted(imageFormat)];
      }
      assert SampleFormats[..i + 1][..i] == SampleFormats[..i];
    }
    assert SampleFormats[..|SampleFormats|] == SampleFormats;
  }

  /**
   * The image section of the wizard's form: one status per candidate, the selected
   * extension (a later suitable candidate overwrites an earlier one) and the default of
   * the hidden `imagineDriver` field, which exists only when something was selected.
   */
  method BuildForm(host: Host)
    returns (statuses: seq<ExtensionStatus>, foundImageHandler: Option<string>, imagineDriver: Option<string>)
    ensures |statuses| == |CandidateExtensions|
    ensures forall i :: 0 <= i < |statuses| ==> statuses[i] == StatusOf(CandidateExtensions[i], host)
    ensures foundImageHandler.None? <==> forall i :: 0 <= i < |CandidateExtensions| ==> !Suitable(CandidateExtensions[i], host)
    ensures foundImageHandler.Some? ==>
      exists k :: LastSuitableAt(CandidateExtensions, host, k) && foundImageHandler.value == CandidateExtensions[k]
    ensures imagineDriver == if foundImageHandler.None? then None else Some(Ucfirst(foundImageHandler.value))
  {
    statuses := [];
    foundImageHandler := None;
    for i := 0 to |CandidateExtensions|
      invariant |statuses| == i
      invariant forall j :: 0 <= j < i ==> statuses[j] == StatusOf(CandidateExtensions[j], host)
      invariant foundImageHandler.None? <==> forall j :: 0 <= j < i ==> !Suitable(CandidateExtensions[j], host)
      invariant foundImageHandler.Some? ==>
        exists k :: LastSuitableAt(CandidateExtensions[..i], host, k) && foundImageHandler.value == CandidateExtensions[k]
    {
      var extensionName := CandidateExtensions[i];
      var status;
      if host.extensionLoaded(extensionName) {
        var unsupportedFormats := FindUnsupportedImageFormats(extensionName, host);
        if |unsupportedFormats| == 0 {
          status := Installed;
          foundImageHandler := Some(extensionName);
          assert LastSuitableAt(CandidateExtensions[..i + 1], host, i);
        } else {
          status := LacksSupport(unsupportedFormats);
        }
      } else {
        status := NotInstalled;
      }
      if foundImageHandler.Some? && !Suitable(extensionName, host) {
        var k :| LastSuitableAt(CandidateExtensions[..i], host, k) && foundImageHandler.value == CandidateExtensions[k];
        assert LastSuitableAt(CandidateExtensions[..i + 1], host, k);
      }
      statuses := statuses + [status];
    }
    assert CandidateExtensions[..|CandidateExtensions|] == CandidateExtensions;
    if foundImageHandler.None? {
      imagineDriver := None;
      return;
    }
    imagineDriver := Some(Ucfirst(foundImageHandler.value));
  }

  // ----- properties -----

  /**
   * The unsupported formats are exactly the quoted formats the driver cannot open, and
   * they keep the order of the sample formats.
   */
  lemma {:induction false} UnsupportedFormatsSpec(driver: string, formats: seq<string>, host: Host)
    ensures forall x :: x in UnsupportedFormats(driver, formats, host) <==>
      exists f :: f in formats && x == Quoted(f) && !host.opens(Ucfirst(driver), f)
    ensures IsSubsequence(UnsupportedFormats(driver, formats, host), QuotedAll(formats))
  {
    if formats != [] {
      var n := |formats| - 1;
      var init := formats[..n];
      var format := formats[n];
      var before := UnsupportedFormats(driver, init, host);
      UnsupportedFormatsSpec(driver, init, host);
      assert formats == init + [format];
      assert QuotedAll(formats) == QuotedAll(init) + [Quoted(format)];
      if host.opens(Ucfirst(driver), format) {
        assert UnsupportedFormats(driver, formats, host) == before;
        SubsequenceExtendRight(before, QuotedAll(init), Quoted(format));
      } else {
        SubsequenceExtendBoth(before, QuotedAll(init), Quoted(format));
      }
    }
  }

  function QuotedAll(formats: seq<string>): seq<string>
  {
    if formats == [] then [] else QuotedAll(formats[..|formats| - 1]) + [Quoted(formats[|formats| - 1])]
  }

  /** With imagick suitable the wizard configures Imagick, whatever gd and gmagick do. */
  lemma ImagickWinsWhenSuitable(host: Host)
    requires Suitable("imagick", host)
    ensures LastSuitableAt(CandidateExtensions, host, 2)
    ensures Ucfirst(CandidateExtensions[2]) == "Imagick"
  {
  }
}

/**
 * Value types of the image-handler probe: the static driver descriptor, the reasons a
 * driver can be unusable, and the per-descriptor diagnostics record.
 */
module ImageHandlerTypes {
  import opened Wrappers
  import opened PhpStrings

  /**
   * One way of running an Imagine driver. `requiredPhpConfiguration` keeps the declared
   * order of the PHP array `[ini key => expected value]`.
   */
  datatype Descriptor = Descriptor(
    driverName: string,
    description: string,
    requiredPhpExtension: string,
    requiredPhpConfiguration: seq<(string, string)>)

  /**
   * Why a descriptor is not usable. `actual` is what `ini_get` returned (`None` for
   * PHP's `false` on an unknown key); `message` is the text of the caught exception.
   */
  datatype Reason =
    | ExtensionNotLoaded(extension: string)
    | DriverNotAvailable(driverName: string)
    | ConfigurationMismatch(key: string, expected: string, actual: Option<string>)
    | FormatNotSupported(format: string, message: string)

  /** Outcome of probing one descriptor. */
  datatype Diagnostics = Diagnostics(descriptor: Descriptor, isReady: bool, statusDetails: seq<Reason>)

  /** The discovery stage a reason belongs to: extension, driver, configuration, format. */
  function Stage(r: Reason): nat
  {
    match r
    case ExtensionNotLoaded(_) => 0
    case DriverNotAvailable(_) => 1
    case ConfigurationMismatch(_, _, _) => 2
    case FormatNotSupported(_, _) => 3
  }

  /** What a reason is about: the extension, driver, ini key or image format it names. */
  function Subject(r: Reason): string
  {
    match r
    case ExtensionNotLoaded(e) => e
    case DriverNotAvailable(d) => d
    case ConfigurationMismatch(k, _, _) => k
    case FormatNotSupported(f, _) => f
  }

  function Subjects(rs: seq<Reason>): (names: seq<string>)
    ensures |names| == |rs|
    ensures forall i :: 0 <= i < |rs| ==> names[i] == Subject(rs[i])
  {
    if rs == [] then [] else Subjects(rs[..|rs| - 1]) + [Subject(rs[|rs| - 1])]
  }

  /**
   * The human-readable status line for a reason; `iniPath` is what
   * `php_ini_loaded_file()` returned (PHP renders `false` as the empty string).
   */
  function ReasonText(r: Reason, iniPath: string): (text: string)
    ensures Contains(text, Subject(r))
    ensures r.ConfigurationMismatch? ==> Contains(text, EchoCommand(r.key, r.expected, iniPath))
    ensures r.ConfigurationMismatch? ==>
      Contains(text, "\", but to \"" + (if r.actual.Some? then r.actual.value else "") + "\" instead.")
    ensures r.FormatNotSupported? ==> Contains(text, r.message)
  {
    match r
    case ExtensionNotLoaded(e) =>
      ContainsMiddle("PHP Extension \"", e, "\" is not loaded.");
      "PHP Extension \"" + e + "\" is not loaded."
    case DriverNotAvailable(d) =>
      ContainsMiddle("Imagine driver \"", d, "\" is not available.");
      "Imagine driver \"" + d + "\" is not available."
    case ConfigurationMismatch(k, e, a) =>
      // "\n" stands for PHP_EOL, which is "\r\n" on Windows.
      var prefix := "PHP configuration \"";
      var expected := "\" is not set to \"" + e;
      var actual := "\", but to \"" + (if a.Some? then a.value else "") + "\" instead.";
      var echo := EchoCommand(k, e, iniPath);
      ContainsSecondFourthSixth(prefix, k, expected, actual, "\n", echo);
      prefix + k + expected + actual + "\n" + echo
    case FormatNotSupported(f, m) =>
      var prefix := "Image format \"";
      var middle := "\" not supported: ";
      ContainsMiddle(prefix, f, middle + m);
      ContainsMiddle(prefix + f + middle, m, "");
      var text := prefix + f + middle + m;
      assert prefix + f + (middle + m) == text;
      assert text + "" == text;
      text
  }

  /** The shell line offered to fix an ini mismatch (`php_ini_loaded_file()` is `iniPath`). */
  function EchoCommand(key: string, expected: string, iniPath: string): string
  {
    "        echo " + key + "=" + expected + " >> " + iniPath
  }

  /** Pieces two, four and six of a six-piece concatenation occur in it. */
  lemma ContainsSecondFourthSixth(a: string, b: string, c: string, d: string, e: string, f: string)
    ensures Contains(a + b + c + d + e + f, b)
    ensures Contains(a + b + c + d + e + f, d)
    ensures Contains(a + b + c + d + e + f, f)
  {
    var s := a + b + c + d + e + f;
    assert s[|a|..|a| + |b|] == b;
    assert OccursAt(s, b, |a|);
    assert s[|a + b + c|..|a + b + c| + |d|] == d;
    assert OccursAt(s, d, |a + b + c|);
    assert s[|a + b + c + d + e|..|s|] == f;
    assert OccursAt(s, f, |a + b + c + d + e|);
  }
}

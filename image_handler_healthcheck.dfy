/**
 * Whether the configured Imagine driver is the one the probe prefers. The preferred
 * driver name is an input: it is what the image-handler service reports as preferred.
 */
module ImageHandlerHealthcheck {
  import opened Wrappers
  import opened HealthcheckDomain
  import opened ImageHandlerDiagnosticsCollection

  const Title := "Image handling"

  const NotConfiguredMessage :=
    "No image driver in <em>Neos.Imagine.driver</em> configured. For configuration you can use <code>./setup:imagehandler</code>"
  const BetterDriverMessage :=
    "You can use a more optional image driver than in <em>Neos.Imagine.driver</em> configured. For configuration you can use <code>./setup:imagehandler</code>"
  const CorrectlySetupMessage := "The image driver is correctly setup"

  /** PHP's `!$configuredDriver` for a setting that is null or a string. */
  predicate IsFalsy(configuredDriver: Option<string>)
  {
    configuredDriver.None? || configuredDriver.value == "" || configuredDriver.value == "0"
  }

  /** `configuredDriver` is `Neos.Imagine.driver` from the settings (`None` when unset). */
  function Execute(configuredDriver: Option<string>, preferredDriverName: string): (h: Health)
    ensures IsFalsy(configuredDriver) ==> h == Health(NotConfiguredMessage, Error)
    ensures !IsFalsy(configuredDriver) ==>
      (h.status == Ok <==> configuredDriver.value == preferredDriverName)
    ensures !IsFalsy(configuredDriver) ==>
      (h.status == Warning <==> configuredDriver.value != preferredDriverName)
  {
    if IsFalsy(configuredDriver) then Health(NotConfiguredMessage, Error)
    else if configuredDriver.value != preferredDriverName then Health(BetterDriverMessage, Warning)
    else Health(CorrectlySetupMessage, Ok)
  }

  /** Without a configured driver the preferred driver does not influence the outcome. */
  lemma PreferredNotConsultedWhenUnconfigured(configuredDriver: Option<string>, preferred1: string, preferred2: string)
    requires IsFalsy(configuredDriver)
    ensures Execute(configuredDriver, preferred1) == Execute(configuredDriver, preferred2)
  {
  }

  /**
   * When the preferred name comes from a probe's diagnostics, an OK result means the
   * configured driver is ready there, and it is the best-ranked ready driver.
   */
  lemma OkMeansConfiguredDriverReady(configuredDriver: Option<string>, diagnostics: DiagnosticsCollection)
    requires Execute(configuredDriver, PreferredDriverName(diagnostics)).status == Ok
    ensures configuredDriver.Some? && IsReady(diagnostics, configuredDriver.value)
    ensures forall k :: LastReadyAt(diagnostics.items, k) ==> Name(diagnostics.items[k]) == configuredDriver.value
  {
    PreferredDriverIsReady(diagnostics);
  }
}

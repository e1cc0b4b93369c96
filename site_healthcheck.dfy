/**
 * Whether a Neos site exists; if not, which installed site packages ship importable
 * content and what the user can run next.
 */
module SiteHealthcheck {
  import opened Wrappers
  import opened PhpStrings
  import opened Sequences
  import opened HealthcheckDomain

  const Title := "Neos site"

  /** Where a site package keeps the content `site:import` reads. */
  function SitesXmlPath(packageKey: string): string
  {
    "resource://" + packageKey + "/Private/Content/Sites.xml"
  }

  /** The root URL of the current HTTP request and the backend login URL below it. */
  datatype InstanceLinks = InstanceLinks(root: string, login: string)

  /** The site packages, in package-manager order, whose Sites.xml exists. */
  function ImportablePackages(sitePackageKeys: seq<string>, fileExists: string -> bool): seq<string>
  {
    if sitePackageKeys == [] then []
    else
      var key := sitePackageKeys[|sitePackageKeys| - 1];
      ImportablePackages(sitePackageKeys[..|sitePackageKeys| - 1], fileExists)
      + (if fileExists(SitesXmlPath(key)) then [key] else [])
  }

  // ----- messages -----

  const SiteExistsPrefix := "Neos site exists. "

  const NoRequestLinkText := "You can now visit your neos and login via at the path: <em>/neos</em>"

  const InstallKickstarterMessage :=
    "No Neos site was created. You might want to install the site kickstarter: <code>composer require neos/site-kickstarter</code>.\n"
    + "Or you can create a new site package completely from scratch via <code>./flow package:create My.Site --package-type=neos-site</code>.\n"
    + "After that you need to create a root NodeType (for the homepage) and setup basic rendering.\n"
    + "Then you can create a site via <code>./flow site:create</code>."

  const KickstartMessage :=
    "No Neos site was created.\n"
    + "You can kickstart a new site package via <code>./flow kickstart:site My.Site my-site</code> and import it via <code>./flow site:import --package-key My.Site</code>"

  function Link(url: string): string
  {
    "<a href=\"" + url + "\">" + url + "</a>"
  }

  function ImportCommand(packageKey: string): string
  {
    "<code>./flow site:import --package-key " + packageKey + "</code>"
  }

  /** The answer when at least one site exists; the links are shown only within an HTTP request. */
  function SiteExistsHealth(links: Option<InstanceLinks>): (h: Health)
    ensures h.status == Ok
    ensures links.Some? ==> Contains(h.message, Link(links.value.root)) && Contains(h.message, Link(links.value.login))
    ensures links.None? ==> h.message == SiteExistsPrefix + NoRequestLinkText
  {
    match links
    case None => Health(SiteExistsPrefix + NoRequestLinkText, Ok)
    case Some(InstanceLinks(root, login)) =>
      var prefix := SiteExistsPrefix + "Visit your instance at ";
      var middle := ". You can login via ";
      ContainsMiddle(prefix, Link(root), middle + Link(login));
      ContainsMiddle(prefix + Link(root) + middle, Link(login), "");
      var message := prefix + Link(root) + middle + Link(login);
      assert prefix + Link(root) + (middle + Link(login)) == message;
      assert message + "" == message;
      Health(message, Ok)
  }

  /** The answer when no site exists: always a warning, pointing at the next step. */
  function NoSiteHealth(importable: seq<string>, kickstarterAvailable: bool): (h: Health)
    ensures h.status == Warning
    ensures importable == [] ==> (h.message == KickstartMessage <==> kickstarterAvailable)
    ensures importable == [] && !kickstarterAvailable ==> h.message == InstallKickstarterMessage
    ensures |importable| == 1 ==> Contains(h.message, ImportCommand(importable[0]))
    ensures |importable| > 1 ==> Contains(h.message, "(" + Join(", ", importable) + ")")
  {
    if |importable| == 0 then
      assert |KickstartMessage| < |InstallKickstarterMessage|;
      if kickstarterAvailable then Health(KickstartMessage, Warning) else Health(InstallKickstarterMessage, Warning)
    else if |importable| == 1 then
      var key := importable[0];
      var prefix := "No Neos site was created. To import the site from " + key + " you can run ";
      ContainsMiddle(prefix, ImportCommand(key), "");
      assert prefix + ImportCommand(key) + "" == prefix + ImportCommand(key);
      Health(prefix + ImportCommand(key), Warning)
    else
      var listed := "(" + Join(", ", importable) + ")";
      var prefix := "No Neos site was created. To import from one of the available site packages ";
      var suffix := " you can run <code>./flow site:import --package-key Package.Key</code>";
      ContainsMiddle(prefix, listed, suffix);
      Health(prefix + listed + suffix, Warning)
  }

  /**
   * `siteCount` is the number of sites in the repository, `sitePackageKeys` the available
   * packages of type neos-site, `fileExists` the resource stream lookup and
   * `kickstarterAvailable` whether Neos.SiteKickstarter is available.
   */
  method Execute(siteCount: nat, links: Option<InstanceLinks>, sitePackageKeys: seq<string>,
                 fileExists: string -> bool, kickstarterAvailable: bool)
    returns (h: Health)
    ensures h.status == Ok <==> siteCount > 0
    ensures siteCount > 0 ==> h == SiteExistsHealth(links)
    ensures siteCount == 0 ==> h == NoSiteHealth(ImportablePackages(sitePackageKeys, fileExists), kickstarterAvailable)
  {
    if siteCount > 0 {
      return SiteExistsHealth(links);
    }
    var availableSitePackagesToBeImported := [];
    for i := 0 to |sitePackageKeys|
      invariant availableSitePackagesToBeImported == ImportablePackages(sitePackageKeys[..i], fileExists)
    {
      var packageKey := sitePackageKeys[i];
      if fileExists(SitesXmlPath(packageKey)) {
        availableSitePackagesToBeImported := availableSitePackagesToBeImported + [packageKey];
      }
      assert sitePackageKeys[..i + 1][..i] == sitePackageKeys[..i];
    }
    assert sitePackageKeys[..|sitePackageKeys|] == sitePackageKeys;
    h := NoSiteHealth(availableSitePackagesToBeImported, kickstarterAvailable);
  }

  // ----- properties -----

  /**
   * A package is offered for import exactly when it is a site package whose Sites.xml
   * exists, and the offers keep the package manager's order.
   */
  lemma {:induction false} ImportablePackagesSpec(sitePackageKeys: seq<string>, fileExists: string -> bool)
    ensures forall k :: k in ImportablePackages(sitePackageKeys, fileExists) <==>
      k in sitePackageKeys && fileExists(SitesXmlPath(k))
    ensures IsSubsequence(ImportablePackages(sitePackageKeys, fileExists), sitePackageKeys)
  {
    if sitePackageKeys != [] {
      var n := |sitePackageKeys| - 1;
      var init := sitePackageKeys[..n];
      var key := sitePackageKeys[n];
      var before := ImportablePackages(init, fileExists);
      ImportablePackagesSpec(init, fileExists);
      assert sitePackageKeys == init + [key];
      if fileExists(SitesXmlPath(key)) {
        SubsequenceExtendBoth(before, init, key);
      } else {
        assert ImportablePackages(sitePackageKeys, fileExists) == before;
        SubsequenceExtendRight(before, init, key);
      }
    }
  }
}

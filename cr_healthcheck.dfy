/**
 * Whether every configured content repository has been set up, judged by the presence of
 * its `cr_<identifier>_events` table.
 */
module CrHealthcheck {
  import opened Wrappers
  import opened PhpStrings
  import opened HealthcheckDomain

  const Title := "Neos ContentRepository"

  const NoRepositoryMessage := "No content repository is configured."

  function EventTableName(crIdentifier: string): string
  {
    "cr_" + crIdentifier + "_events"
  }

  function NotSetupMessage(crIdentifier: string): string
  {
    "Content repository " + Quoted(crIdentifier) + " was not setup. Please run <code>{{flowCommand}} cr:setup</code>"
  }

  /** Position `k` holds the first identifier, in configured order, without an events table. */
  predicate FirstMissingAt(crIdentifiers: seq<string>, existingTableNames: seq<string>, k: int)
  {
    0 <= k < |crIdentifiers| && EventTableName(crIdentifiers[k]) !in existingTableNames
    && forall j :: 0 <= j < k ==> EventTableName(crIdentifiers[j]) in existingTableNames
  }

  /** The search over the identifiers that stops at the first missing events table. */
  function FirstMissingRepository(crIdentifiers: seq<string>, existingTableNames: seq<string>): (missing: Option<int>)
    ensures missing.None? <==>
      forall i :: 0 <= i < |crIdentifiers| ==> EventTableName(crIdentifiers[i]) in existingTableNames
    ensures missing.Some? ==> FirstMissingAt(crIdentifiers, existingTableNames, missing.value)
  {
    if crIdentifiers == [] then None
    else if EventTableName(crIdentifiers[0]) !in existingTableNames then Some(0)
    else
      match FirstMissingRepository(crIdentifiers[1..], existingTableNames)
      case None => None
      case Some(k) => Some(k + 1)
  }

  /**
   * `crIdentifiers` are the keys of `Neos.ContentRepositoryRegistry.contentRepositories`
   * in configured order; `existingTableNames` is what the schema manager lists.
   */
  function Execute(crIdentifiers: seq<string>, existingTableNames: seq<string>, safeToLeakTechnicalDetails: bool)
    : (h: Health)
    ensures crIdentifiers == [] ==> h == Health(NoRepositoryMessage, Error)
    ensures h.status != Warning
    ensures h.status == Ok <==>
      crIdentifiers != [] && forall i :: 0 <= i < |crIdentifiers| ==> EventTableName(crIdentifiers[i]) in existingTableNames
    ensures forall k :: FirstMissingAt(crIdentifiers, existingTableNames, k) ==>
      h.status == Error && Contains(h.message, Quoted(crIdentifiers[k]))
    ensures |crIdentifiers| == 1 && h.status == Ok ==>
      if safeToLeakTechnicalDetails then Contains(h.message, Quoted(crIdentifiers[0]))
      else h.message == "Content repository is setup."
    ensures |crIdentifiers| > 1 && h.status == Ok ==>
      if safeToLeakTechnicalDetails then Contains(h.message, "(" + Join(", ", crIdentifiers) + ")")
      else h.message == "All content repositories are setup."
  {
    if |crIdentifiers| == 0 then Health(NoRepositoryMessage, Error)
    else match FirstMissingRepository(crIdentifiers, existingTableNames)
      case Some(k) =>
        var quoted := Quoted(crIdentifiers[k]);
        ContainsMiddle("Content repository ", quoted, " was not setup. Please run <code>{{flowCommand}} cr:setup</code>");
        assert forall m :: FirstMissingAt(crIdentifiers, existingTableNames, m) ==> m == k;
        Health(NotSetupMessage(crIdentifiers[k]), Error)
      case None =>
        if |crIdentifiers| == 1 then
          var quoted := Quoted(crIdentifiers[0]);
          if safeToLeakTechnicalDetails then
            ContainsMiddle("Content repository ", quoted, " is setup.");
            Health("Content repository " + quoted + " is setup.", Ok)
          else
            Health("Content repository is setup.", Ok)
        else
          var listed := "(" + Join(", ", crIdentifiers) + ")";
          if safeToLeakTechnicalDetails then
            ContainsMiddle("All content repositories ", listed, " are setup.");
            Health("All content repositories " + listed + " are setup.", Ok)
          else
            Health("All content repositories are setup.", Ok)
  }
}

/** Concrete instances of the compliance filter's rule. */
module ReleaseFilterExamples {
  import opened Wrappers
  import opened AzureTypes
  import Text
  import opened ReleaseFilter

  /** Case-insensitive substring matching on concrete names: "Production"
      matches ... */
  lemma ProductionMatches()
    ensures IsProductionName("Production")
  {
    Text.LowersTo("Production", "production");
    LoweredPrefixMatches("Production", "production");
  }

  lemma UpperCaseLowered()
    ensures Text.ToLower("PRODUCTION-EU") == "production-eu"
  {
    Text.LowersTo("PRODUCTION-EU", "production-eu");
  }

  lemma LoweredStartsWithMarker()
    ensures Text.StartsWith("production-eu", ProductionMarker)
  {
  }

  /** ... and so does "PRODUCTION-EU". */
  lemma UpperCaseProductionMatches()
    ensures IsProductionName("PRODUCTION-EU")
  {
    UpperCaseLowered();
    LoweredStartsWithMarker();
    LoweredPrefixMatches("PRODUCTION-EU", "production-eu");
  }

  /** "Prod" and "Staging" are too short to contain "production". */
  lemma OtherNamesDoNotMatch()
    ensures !IsProductionName("Prod")
    ensures !IsProductionName("Staging")
  {
    Text.ShorterNeverIncludes(Text.ToLower("Prod"), ProductionMarker);
    Text.ShorterNeverIncludes(Text.ToLower("Staging"), ProductionMarker);
  }

  /** The concrete releases: [Staging without approvals, Production with an
      approval] is dropped; [Production with an approval, PRODUCTION-EU with
      no approval list] is kept; a lone Production is kept without approvals
      and dropped with one. */
  lemma ExistenceNotUniversal(approval: Approval)
    ensures !IsFlagged(Release(2, "R2", "active",
      [ReleaseEnvironment(20, "Staging", "succeeded", Some([])),
       ReleaseEnvironment(21, "Production", "notStarted", Some([approval]))]))
    ensures IsFlagged(Release(3, "R3", "active",
      [ReleaseEnvironment(30, "Production", "succeeded", Some([approval])),
       ReleaseEnvironment(31, "PRODUCTION-EU", "notStarted", None)]))
    ensures IsFlagged(Release(4, "R4", "active", [ReleaseEnvironment(40, "Production", "succeeded", Some([]))]))
    ensures !IsFlagged(Release(4, "R4", "active", [ReleaseEnvironment(40, "Production", "succeeded", Some([approval]))]))
  {
    ProductionMatches();
    UpperCaseProductionMatches();
    OtherNamesDoNotMatch();
    UnapprovedStagingIsNotEnough(Release(2, "R2", "active",
      [ReleaseEnvironment(20, "Staging", "succeeded", Some([])),
       ReleaseEnvironment(21, "Production", "notStarted", Some([approval]))]));
    OneUnapprovedProductionSuffices(Release(3, "R3", "active",
      [ReleaseEnvironment(30, "Production", "succeeded", Some([approval])),
       ReleaseEnvironment(31, "PRODUCTION-EU", "notStarted", None)]), 1);
    ApprovalDecides(Release(4, "R4", "active", [ReleaseEnvironment(40, "Production", "succeeded", Some([]))]));
    ApprovalDecides(Release(4, "R4", "active", [ReleaseEnvironment(40, "Production", "succeeded", Some([approval]))]));
  }
}

/** The records the Azure DevOps REST API returns, as the explorer sees them. */
module AzureTypes {
  import opened Wrappers

  datatype Approver = Approver(displayName: string, uniqueName: string)

  /** One pre-deployment approval configured on a release environment. */
  datatype Approval = Approval(id: int, approver: Approver)

  /** A deployment stage of a release. The approval list may be missing from
      the server's answer, which is why it is optional here. */
  datatype ReleaseEnvironment = ReleaseEnvironment(
    id: int,
    name: string,
    status: string,
    preDeployApprovals: Option<seq<Approval>>)

  /** A release; its environments are kept in server (and display) order. */
  datatype Release = Release(
    id: int,
    name: string,
    status: string,
    environments: seq<ReleaseEnvironment>)

  datatype Project = Project(id: string, name: string, description: Option<string>)

  datatype Pipeline = Pipeline(id: int, name: string, revision: int, status: string)
}

/** What the release transition analyzer reads and reports. */
module TransitionTypes {
  import opened Prelude
  import opened Store1Types

  datatype Target = Target(
    productVersion: Version, contract: Contract, artifact: Artifact,
    browser: Browser, minimumBrowser: BrowserVersion,
    policyKey: MachineKey, adapterKey: MachineKey, surfaceKey: MachineKey, profileKey: MachineKey,
    profileContent: ProfileContent)

  /** The STORE-1 candidate as a target. */
  const STORE1_TARGET := Target(
    CURRENT, CONTROL_PLANE_V2, ACCEPTED, OPERA, MINIMUM_136, STORE1_KEY, STORE1_KEY, STORE1_KEY, STORE1_KEY, TARGET)

  datatype BrowserArtifact = BrowserArtifact(browser: Browser, artifact: Option<Artifact>)

  datatype TransitionRelease = TransitionRelease(release: Release, rows: Option<seq<BrowserArtifact>>)

  datatype TransitionPolicy = TransitionPolicy(policy: Policy, revision: int)

  datatype RegistryEntity = RegistryEntity(
    id: string, key: MachineKey, status: Status,
    adapterId: Option<string>, surfaceId: Option<string>, variantId: Option<string>)

  datatype Component =
    | RELEASE | POLICY | CONFIG | ADAPTER | SURFACE | PROFILE | PROFILE_REVISION | ASSIGNMENT

  /** A part of the readback that failed. */
  datatype Issue = Issue(scope: Component, code: string)

  /** The outer `None` means not read; an inner one that the server has nothing. */
  datatype TransitionCatalog = TransitionCatalog(
    release: Option<Option<TransitionRelease>>, policies: Option<seq<TransitionPolicy>>,
    config: Option<Option<Config>>, adapters: Option<seq<RegistryEntity>>, surfaces: Option<seq<RegistryEntity>>,
    profiles: Option<seq<RegistryEntity>>, revisions: Option<seq<Revision>>, assignments: Option<seq<Assignment>>,
    errors: seq<Issue>)

  datatype CheckStatus = READY | MISMATCH | UNKNOWN

  datatype Check = Check(component: Component, status: CheckStatus, code: string)

  /** A digest is 64 lower-case hexadecimal characters; the accepted one is. */
  predicate IsHash(artifact: Artifact) {
    match artifact
    case ACCEPTED => true
    case OtherArtifact(sha256) => |sha256| == 64 && IsHex(sha256)
  }
}

/**
 * What the STORE-1 planner reads. A text that the planner only compares with one fixed value is a
 * datatype with a constructor for that value and one for every other text.
 */
module Store1Types {
  import opened Prelude

  /** "0.2.11", "0.2.9", or another version. */
  datatype Version = CURRENT | PREDECESSOR | OtherVersion(text: string)
  /** "control_plane_v2" */
  datatype Contract = CONTROL_PLANE_V2 | OtherContract(text: string)
  /** "opera" */
  datatype Browser = OPERA | OtherBrowser(text: string)
  /** "136" */
  datatype BrowserVersion = MINIMUM_136 | OtherBrowserVersion(text: string)
  /** The digest of the accepted package, or another one. */
  datatype Artifact = ACCEPTED | OtherArtifact(sha256: string)
  /** The machine key that STORE-1 uses in a registry, or another one. */
  datatype MachineKey = STORE1_KEY | OtherKey(text: string)
  /** The fingerprint of the target profile content, of its accepted predecessor, or another one. */
  datatype ProfileContent = TARGET | PREVIOUS | OtherContent(sha256: string)
  datatype Channel = STABLE | OtherChannel(text: string)

  datatype Status = ACTIVE | DISABLED | SUSPENDED
  datatype BetaMode = CLOSED | OPEN | PAUSED_BETA
  datatype KeyState = KEY_ACTIVE | KEY_NOT_ACTIVE
  datatype RevisionState = DRAFT | CANDIDATE | PUBLISHED | RETIRED
  datatype Mode = DIRECT | ROLLOUT | PAUSED
  datatype Subject = ACCOUNT | DEVICE

  datatype Release = Release(
    version: Version, channel: Channel, artifact: Option<Artifact>,
    contracts: seq<Contract>, browsers: seq<Browser>)

  datatype Policy = Policy(
    id: string, key: MachineKey, contract: Contract, browser: Option<Browser>,
    minimumExtension: Option<Version>, recommendedExtension: Option<Version>,
    minimumBrowser: Option<BrowserVersion>,
    maintenanceMode: bool, maintenanceCode: Option<string>, blockedVersions: seq<Version>)

  /** `bootstrapV2`: both the snapshot and the envelope version are the expected ones. */
  datatype Config = Config(
    configVersion: int, contract: Contract, bootstrapV2: bool,
    contentHash: string, sourceFingerprint: string,
    signingKeyId: string, signingKeyState: KeyState, policyIds: seq<string>)

  datatype Entity = Entity(id: string, key: MachineKey, status: Status)

  datatype Profile = Profile(
    id: string, key: MachineKey, status: Status,
    adapterId: string, surfaceId: string, variantId: Option<string>)

  datatype Revision = Revision(id: string, revision: nat, state: RevisionState, content: ProfileContent)

  datatype Latest = Latest(
    revision: nat, mode: Mode, baseline: string, candidate: Option<string>, percentageBps: int)

  datatype Assignment = Assignment(
    id: string, adapterId: string, surfaceId: string, variantId: Option<string>,
    browser: Browser, subject: Subject, latest: Option<Latest>)

  /**
   * A signature proof. `trusted`: made by the preflight in this process; `wellFormed`: the fixed
   * fields, the digest and the origin have the required values; times are absent when unparsable.
   */
  datatype Proof = Proof(
    trusted: bool, wellFormed: bool, artifact: Artifact, signingKeyId: string, accountId: string,
    configVersion: int, contentHash: string, sourceFingerprint: string,
    serverTime: Option<int>, expiresAt: Option<int>)

  datatype ReviewerUser = ReviewerUser(id: string, status: Status, emailVerified: bool)
  datatype Account = Account(id: string)
  datatype Admission = Admission(accountId: string, admitted: bool)

  /** A paged collection: not read yet, or the items so far with a cursor that may be unknown. */
  datatype Collection<T> = Unread | Page(items: seq<T>, nextCursor: Option<Option<string>>)

  /** A collection read to its end. */
  function Whole<T>(items: seq<T>): Collection<T> {
    Page(items, Some(None))
  }

  /** Everything read so far; the outer `None` means not read, an inner `None` that nothing is there. */
  datatype Readback = Readback(
    beta: Option<BetaMode>, user: Option<Option<ReviewerUser>>,
    accounts: Collection<Account>, admission: Option<Option<Admission>>,
    proof: Option<Proof>,
    config: Option<Option<Config>>, release: Option<Option<Release>>, policies: Option<seq<Policy>>,
    adapters: Collection<Entity>, surfaces: Collection<Entity>, profiles: Collection<Profile>,
    revisions: Collection<Revision>, assignments: Collection<Assignment>)

  /** What a GET of the plan asks for. */
  datatype ReadPath =
    | BetaPath | UserPath | AccountsPath(cursor: Option<string>) | AdmissionPath(accountId: string)
    | ConfigPath | ReleasePath | PoliciesPath
    | AdaptersPath(cursor: Option<string>)
    | SurfacesPath(adapterId: string, cursor: Option<string>)
    | ProfilesPath(adapterId: string, surfaceId: string, cursor: Option<string>)
    | RevisionsPath(profileId: string, cursor: Option<string>)
    | AssignmentsPath(adapterId: string, surfaceId: string, cursor: Option<string>)

  /** A catalog mutation with the parts of its body that are not fixed. */
  datatype Action =
    | PublishRelease(artifact: Artifact)
    | PublishPolicy
    | PublishConfig(expectedLatestConfigVersion: int, policyId: string)
    | CreateAdapter
    | CreateSurface(adapterId: string)
    | CreateProfile(adapterId: string, surfaceId: string)
    | CreateRevision(profileId: string)
    | PromoteRevision(profileId: string, revision: nat)
    | PublishRevision(profileId: string, revision: nat)
    | CreateAssignment(adapterId: string, surfaceId: string)
    | SelectDirect(assignmentId: string, baseline: string, expectedLatest: Option<nat>)

  datatype Plan =
    | Read(path: ReadPath)
    | Post(action: Action)
    | Blocked(code: string)
    | Conflict(code: string)
    | Ready(profileRevisionId: string, assignmentId: string)
}

/** Frames and frame sets, the values that the synchroniser passes around. */
module SyncModels {
  import opened Wrappers

  datatype IdentityMode = V2 | LEGACY

  datatype ArchiveState = ARCHIVE_PENDING | ARCHIVE_DURABLE | ARCHIVE_DEGRADED_LIVE_ONLY

  /** What an archive completion writes onto a frame. */
  datatype Archive = Archive(
    frameId: Option<int>,
    filePath: Option<string>,
    state: ArchiveState,
    error: Option<string>)

  datatype Scope = Scope(
    tenantId: Option<string>,
    siteId: Option<string>,
    captureSessionId: Option<string>,
    processingJobId: Option<string>,
    profileDigest: Option<string>,
    authorizedSubject: Option<string>,
    sessionTokenJti: Option<string>,
    authorizedCameraId: Option<string>,
    cameraClaimId: Option<string>)

  /** The pair that names a camera's current source. */
  datatype SourceIdentity = SourceIdentity(
    sessionId: Option<string>,
    cameraStreamId: Option<string>)

  /** An arriving frame. `bufferKey` is filled in when the frame is stored;
      `imageDigest` is the digest of the image bytes. */
  datatype SyncFrame = SyncFrame(
    bufferKey: string,
    deviceId: string,
    timestampMs: int,
    sequence: Option<int>,
    source: SourceIdentity,
    sourceFrameUid: Option<string>,
    contentDigest: Option<string>,
    imageDigest: string,
    mode: IdentityMode,
    captureConfigDigest: Option<string>,
    scope: Scope,
    archive: Archive)
  {
    /** The identity fields a V2 frame must carry to take part in a V2 frame set. */
    predicate IdentityComplete()
    {
      && mode == V2
      && Truthy(source.sessionId)
      && Truthy(source.cameraStreamId)
      && sequence.Some?
      && Truthy(sourceFrameUid)
      && Truthy(contentDigest)
    }
  }

  /** Absent and empty text both count as missing. */
  predicate Truthy(text: Option<string>)
  {
    text.Some? && text.value != ""
  }

  function OrEmpty(text: Option<string>): string
  {
    if text.Some? then text.value else ""
  }

  function DigitsText(n: nat): string
  {
    var last := [(n % 10) as char + '0'];
    if n < 10 then last else DigitsText(n / 10) + last
  }

  function IntText(n: int): string
  {
    if n < 0 then "-" + DigitsText(-n) else DigitsText(n)
  }

  /** The key under which a frame is deduplicated. */
  function BuildBufferKey(frame: SyncFrame): string
  {
    if Truthy(frame.sourceFrameUid) then
      "source:" + frame.sourceFrameUid.value
    else if frame.archive.frameId.Some? then
      "db:" + IntText(frame.archive.frameId.value)
    else
      "legacy:" + frame.deviceId + ":" + IntText(frame.timestampMs) + ":"
      + (if frame.sequence.Some? then IntText(frame.sequence.value) else "-") + ":"
      + (if Truthy(frame.contentDigest) then frame.contentDigest.value else frame.imageDigest)
  }

  function Stored(frame: SyncFrame): SyncFrame
  {
    frame.(bufferKey := BuildBufferKey(frame))
  }

  /** One frame per camera. */
  type Selection = map<string, SyncFrame>

  /** A capture session is either declared by the authorization scope or derived
      from the source sessions of the members. */
  datatype CaptureSessionId =
    | Declared(id: string)
    | Derived(sources: multiset<(string, string)>)

  datatype AuthorizationKey = AuthorizationKey(
    tenantId: Option<string>,
    siteId: Option<string>,
    captureSessionId: Option<string>,
    processingJobId: Option<string>,
    profileDigest: Option<string>,
    authorizedSubject: Option<string>,
    sessionTokenJti: Option<string>)

  datatype CaptureIdentity = CaptureIdentity(
    mode: IdentityMode,
    sessionId: Option<CaptureSessionId>,
    configKey: Option<multiset<(string, string)>>,
    authorization: Option<AuthorizationKey>)

  /** What the manifest of a frame set records. The digest and the uid of a set are
      injective functions of this value, so the value stands for both. */
  datatype ManifestPayload = ManifestPayload(
    mode: IdentityMode,
    sessionId: Option<CaptureSessionId>,
    authorization: Option<AuthorizationKey>,
    windowMs: int,
    spanMs: int,
    anchorTimestampMs: int,
    freshnessOriginMs: int,
    members: map<string, ManifestMember>)

  datatype ManifestMember = ManifestMember(
    deviceId: string,
    source: SourceIdentity,
    sequence: Option<int>,
    sourceFrameUid: Option<string>,
    timestampMs: int,
    contentDigest: Option<string>,
    captureConfigDigest: Option<string>,
    authorizedCameraId: Option<string>,
    cameraClaimId: Option<string>,
    authorizedSubject: Option<string>,
    sessionTokenJti: Option<string>)

  datatype FrameSet = FrameSet(
    frameSetId: int,
    captureRunId: string,
    synchronizedAtMs: int,
    frames: Selection,
    spanMs: int,
    anchorTimestampMs: int,
    identity: CaptureIdentity,
    manifest: ManifestPayload,
    archiveState: ArchiveState,
    archiveErrors: set<string>)
}

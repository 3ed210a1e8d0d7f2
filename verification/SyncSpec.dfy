/** One step of the synchroniser as a function of its state: store the arriving frame,
    look for a candidate, then consume, number, emit and prune. */
module SyncSpec {
  import opened Wrappers
  import opened SyncModels
  import opened BufferSpec
  import opened FrameOrder
  import opened MinSpanSweep
  import opened IdentityResolution

  datatype Config = Config(cameras: seq<string>, windowMs: int, recentLimit: nat)

  datatype MatcherState = MatcherState(
    nextFrameSetId: int,
    captureSessionId: Option<CaptureSessionId>,
    captureConfigKey: Option<multiset<(string, string)>>,
    authorizationKey: Option<AuthorizationKey>,
    captureRunId: string,
    lastSynchronizedAtMs: int,
    recent: seq<FrameSet>,
    matchedCount: nat,
    missedCount: nat,
    ignoredCount: nat,
    droppedStaleCount: int,
    droppedSupersededCount: nat)

  datatype SyncState = SyncState(buffers: BufferState, matcher: MatcherState)

  /** An arriving frame, the clock when it is handled and a run id never used before. */
  datatype Input = Input(frame: SyncFrame, nowMs: int, freshRunId: string)

  datatype Outcome = Outcome(state: SyncState, emitted: Option<FrameSet>)

  /** The candidates of the expected cameras, each list in trial order. */
  function Offer(buffers: BufferState, cameras: seq<string>): Stock
  {
    map d | d in cameras :: SortFrames(buffers.Frames(d))
  }

  /** The members in the order of the expected cameras. */
  function Members(cameras: seq<string>, frames: Selection): seq<SyncFrame>
    requires forall d | d in cameras :: d in frames
  {
    seq(|cameras|, i requires 0 <= i < |cameras| => frames[cameras[i]])
  }

  // ----- emitting -----

  predicate Degraded(frames: Selection)
  {
    exists d :: d in frames && frames[d].archive.state == ARCHIVE_DEGRADED_LIVE_ONLY
  }

  function SetArchiveState(frames: Selection): ArchiveState
  {
    if Degraded(frames) then ARCHIVE_DEGRADED_LIVE_ONLY else ARCHIVE_PENDING
  }

  function ErrorText(archive: Archive): string
  {
    if Truthy(archive.error) then archive.error.value else "member archive unavailable"
  }

  /** The distinct errors of the degraded members; they are joined in sorted order. */
  function SetArchiveErrors(frames: Selection): set<string>
  {
    set d | d in frames && frames[d].archive.state == ARCHIVE_DEGRADED_LIVE_ONLY :: ErrorText(frames[d].archive)
  }

  function ManifestMemberOf(frame: SyncFrame): ManifestMember
  {
    ManifestMember(
      frame.deviceId, frame.source, frame.sequence, frame.sourceFrameUid, frame.timestampMs, frame.contentDigest,
      frame.captureConfigDigest, frame.scope.authorizedCameraId, frame.scope.cameraClaimId,
      frame.scope.authorizedSubject, frame.scope.sessionTokenJti)
  }

  ghost function ManifestOf(identity: CaptureIdentity, frames: Selection, windowMs: int): ManifestPayload
    requires frames != map[]
  {
    ManifestPayload(
      identity.mode, identity.sessionId, identity.authorization, windowMs,
      Span(frames), Latest(frames), Earliest(frames),
      map d | d in frames :: ManifestMemberOf(frames[d]))
  }

  predicate Rotates(m: MatcherState, identity: CaptureIdentity)
  {
    && identity.sessionId.Some?
    && m.captureSessionId.Some?
    && (|| identity.sessionId != m.captureSessionId
        || identity.configKey != m.captureConfigKey
        || identity.authorization != m.authorizationKey)
  }

  /** Another capture starts another run, numbered from one. */
  function ForIdentity(m: MatcherState, identity: CaptureIdentity, freshRunId: string): MatcherState
  {
    var rotated := if Rotates(m, identity) then m.(captureRunId := freshRunId, nextFrameSetId := 1) else m;
    if identity.sessionId.Some? then
      rotated.(
        captureSessionId := identity.sessionId,
        captureConfigKey := identity.configKey,
        authorizationKey := identity.authorization)
    else rotated
  }

  function NextTime(m: MatcherState, nowMs: int): int
  {
    if nowMs > m.lastSynchronizedAtMs + 1 then nowMs else m.lastSynchronizedAtMs + 1
  }

  ghost function FrameSetOf(
      m: MatcherState, identity: CaptureIdentity, frames: Selection, windowMs: int, nowMs: int): FrameSet
    requires frames != map[]
  {
    FrameSet(
      m.nextFrameSetId, m.captureRunId, NextTime(m, nowMs), frames, Span(frames), Latest(frames), identity,
      ManifestOf(identity, frames, windowMs), SetArchiveState(frames), SetArchiveErrors(frames))
  }

  function AfterEmitting(m: MatcherState, emitted: FrameSet, recentLimit: nat, superseded: nat): MatcherState
  {
    m.(
      nextFrameSetId := m.nextFrameSetId + 1,
      lastSynchronizedAtMs := emitted.synchronizedAtMs,
      recent := Bounded(m.recent + [emitted], recentLimit),
      matchedCount := m.matchedCount + 1,
      droppedSupersededCount := m.droppedSupersededCount + superseded)
  }

  // ----- pruning -----

  predicate AllSeen(buffers: BufferState, cameras: seq<string>)
  {
    forall d | d in cameras :: buffers.Camera(d).lastTimestampMs.Some?
  }

  /** The latest timestamp of the camera that lags most. */
  function Watermark(buffers: BufferState, cameras: seq<string>): (w: int)
    requires cameras != [] && AllSeen(buffers, cameras)
  {
    var first := buffers.Camera(cameras[0]).lastTimestampMs.value;
    if |cameras| == 1 then first
    else
      var rest := Watermark(buffers, cameras[1..]);
      if first < rest then first else rest
  }

  /** Once every camera has been seen, frames too old for the slowest one are dropped. */
  function WithoutStale(config: Config, buffers: BufferState): BufferState
    requires config.cameras != []
  {
    if AllSeen(buffers, config.cameras) then
      buffers.KeepFrom(config.cameras, Watermark(buffers, config.cameras) - config.windowMs)
    else buffers
  }

  /** `pruning` off describes the same matcher without its pruning. */
  function PrunedBuffers(config: Config, pruning: bool, buffers: BufferState): BufferState
    requires config.cameras != []
  {
    if pruning then WithoutStale(config, buffers) else buffers
  }

  function Prune(config: Config, pruning: bool, state: SyncState): SyncState
    requires config.cameras != []
  {
    var kept := PrunedBuffers(config, pruning, state.buffers);
    SyncState(kept, state.matcher.(
      droppedStaleCount := state.matcher.droppedStaleCount
        + state.buffers.FrameTotal(config.cameras) - kept.FrameTotal(config.cameras)))
  }

  // ----- a match attempt -----

  function Missed(state: SyncState): SyncState
  {
    state.(matcher := state.matcher.(missedCount := state.matcher.missedCount + 1))
  }

  ghost function Emit(
      config: Config, state: SyncState, frames: Selection, identity: CaptureIdentity, input: Input): Outcome
    requires frames != map[] && forall d :: d in config.cameras <==> d in frames
  {
    var m := ForIdentity(state.matcher, identity, input.freshRunId);
    var emitted := FrameSetOf(m, identity, frames, config.windowMs, input.nowMs);
    Outcome(
      SyncState(
        state.buffers.ConsumeThrough(frames),
        AfterEmitting(m, emitted, config.recentLimit, state.buffers.SupersededTotal(config.cameras, frames))),
      Some(emitted))
  }

  ghost function Best(config: Config, state: SyncState): (best: Option<Selection>)
    requires config.cameras != []
    ensures best.Some? ==> best.value != map[] && forall d :: d in config.cameras <==> d in best.value
  {
    var best := Candidate(Offer(state.buffers, config.cameras), config.windowMs);
    if best.Some? then
      SweepSelects(Offer(state.buffers, config.cameras));
      best
    else best
  }

  ghost function Attempt(config: Config, state: SyncState, input: Input): Outcome
    requires config.cameras != []
  {
    var best := Best(config, state);
    if best.None? then Outcome(Missed(state), None)
    else
      match Resolve(Members(config.cameras, best.value))
      case ScopeConflict(_) => Outcome(Missed(state), None)
      case Resolved(identity) => Emit(config, state, best.value, identity, input)
  }

  ghost function TryMatch(config: Config, pruning: bool, state: SyncState, input: Input): Outcome
  {
    if config.cameras == [] then Outcome(Missed(state), None)
    else if input.frame.deviceId !in config.cameras then
      Outcome(state.(matcher := state.matcher.(ignoredCount := state.matcher.ignoredCount + 1)), None)
    else
      var attempt := Attempt(config, state, input);
      attempt.(state := Prune(config, pruning, attempt.state))
  }

  ghost function HandleFrame(config: Config, pruning: bool, state: SyncState, input: Input): Outcome
  {
    var stored := Stored(input.frame);
    var added := state.(buffers := state.buffers.AddFrame(stored));
    if state.buffers.Accepts(stored) then TryMatch(config, pruning, added, input)
    else Outcome(added, None)
  }

  // ----- runs -----

  datatype RunResult = RunResult(state: SyncState, emitted: seq<FrameSet>)

  function AsSeq<T>(x: Option<T>): seq<T>
  {
    if x.Some? then [x.value] else []
  }

  ghost function Run(config: Config, pruning: bool, state: SyncState, inputs: seq<Input>): RunResult
    decreases |inputs|
  {
    if inputs == [] then RunResult(state, [])
    else
      var step := HandleFrame(config, pruning, state, inputs[0]);
      var rest := Run(config, pruning, step.state, inputs[1..]);
      RunResult(rest.state, AsSeq(step.emitted) + rest.emitted)
  }

  function InitialMatcher(runId: string): MatcherState
  {
    MatcherState(1, None, None, None, runId, 0, [], 0, 0, 0, 0, 0)
  }

  function Initial(bufferSize: nat, runId: string): SyncState
  {
    SyncState(EmptyBuffers(bufferSize), InitialMatcher(runId))
  }

  /** The scopes of the candidate found at this step cannot be reconciled. */
  ghost predicate ConflictArises(config: Config, state: SyncState, input: Input)
  {
    var stored := Stored(input.frame);
    && config.cameras != []
    && state.buffers.Accepts(stored)
    && stored.deviceId in config.cameras
    && var best := Best(config, state.(buffers := state.buffers.AddFrame(stored)));
       best.Some? && Resolve(Members(config.cameras, best.value)).ScopeConflict?
  }
}

/** The durable tables of the relay and what each transaction makes of them. */
module RelaySpec {
  import opened Wrappers
  import opened SyncModels
  import TextOrder
  import ProcessingJobs

  // ----- rows -----

  datatype LiveState =
    | ELIGIBLE | OFFERED | UNRESOLVED | ACCEPTED | STARTED
    | COMPLETED | FAILED | REJECTED | RECOVERY_REQUIRED
    | EXPIRED_BEFORE_OFFER | SUPERSEDED_BEFORE_OFFER | SESSION_INACTIVE

  /** A set in one of these states occupies the slot. */
  predicate Occupies(state: LiveState)
  {
    state == OFFERED || state == UNRESOLVED || state == ACCEPTED || state == STARTED
  }

  /** A set in one of these states is done with. */
  predicate Final(state: LiveState)
  {
    state != ELIGIBLE && !Occupies(state)
  }

  datatype RowState = OPEN | CLOSED

  datatype RunRow = RunRow(sessionId: CaptureSessionId, state: RowState)

  datatype FrameSetKey = FrameSetKey(captureRunId: string, frameSetId: int, frameSetUid: string)

  datatype CreditIdentity = CreditIdentity(processorInstanceId: string, streamEpoch: string, creditId: string)

  datatype Manifest = Manifest(
    uid: string,
    sessionId: CaptureSessionId,
    captureRunId: string,
    frameSetId: int,
    synchronizedAtMs: int,
    createdAtMs: int,
    authorization: Option<AuthorizationKey>,
    payload: ManifestPayload)
  {
    function Key(): FrameSetKey
    {
      FrameSetKey(captureRunId, frameSetId, uid)
    }
  }

  datatype Projection = Projection(archiveState: ArchiveState, liveState: LiveState)

  datatype InFlight = InFlight(uid: string, credit: CreditIdentity, offeredAtMs: int)

  /** The single row of scheduler state; an absent row reads as an empty one. */
  datatype ClientState = ClientState(
    inFlight: Option<InFlight>,
    watermark: Option<FrameSetKey>,
    reoffer: Option<string>,
    processingJob: Option<ProcessingJobs.Binding>)

  datatype Database = Database(
    manifests: map<string, Manifest>,
    projections: map<string, Projection>,
    memberSets: map<string, string>,
    sessions: map<CaptureSessionId, RowState>,
    runs: map<string, RunRow>,
    client: ClientState)
  {
    predicate InState(uid: string, state: LiveState)
    {
      uid in projections && projections[uid].liveState == state
    }

    /** A row that the scheduler may pick: eligible, and its archive durable. */
    predicate Ready(uid: string)
    {
      uid in manifests && InState(uid, ELIGIBLE) && projections[uid].archiveState == ARCHIVE_DURABLE
    }

    function WithLive(uid: string, state: LiveState): Database
      requires uid in projections
    {
      this.(projections := projections[uid := projections[uid].(liveState := state)])
    }
  }

  const EMPTY_DATABASE := Database(map[], map[], map[], map[], map[], ClientState(None, None, None, None))

  // ----- order -----

  /** The order of (synchronized_at_ms, created_at_ms, frame_set_uid). */
  predicate Precedes(a: Manifest, b: Manifest)
  {
    || a.synchronizedAtMs < b.synchronizedAtMs
    || (&& a.synchronizedAtMs == b.synchronizedAtMs
        && (|| a.createdAtMs < b.createdAtMs
            || (a.createdAtMs == b.createdAtMs && TextOrder.Less(a.uid, b.uid))))
  }

  /** "Newer": by number within a capture run, by time across runs. */
  predicate Newer(a: Manifest, b: Manifest)
  {
    if a.captureRunId == b.captureRunId then a.frameSetId > b.frameSetId else Precedes(b, a)
  }

  lemma PrecedesTotal(a: Manifest, b: Manifest)
    ensures a.uid == b.uid || Precedes(a, b) || Precedes(b, a)
    ensures !(Precedes(a, b) && Precedes(b, a)) && !Precedes(a, a)
  {
    TextOrder.Total(a.uid, b.uid);
    TextOrder.Total(a.uid, a.uid);
  }

  lemma PrecedesTransitive(a: Manifest, b: Manifest, c: Manifest)
    requires Precedes(a, b) && Precedes(b, c)
    ensures Precedes(a, c)
  {
    if TextOrder.Less(a.uid, b.uid) && TextOrder.Less(b.uid, c.uid) {
      TextOrder.Transitive(a.uid, b.uid, c.uid);
    }
  }

  // ----- looking up the newest ready row -----

  /** No ready row among the given ones comes after `uid`. */
  ghost predicate IsLastReady(db: Database, uids: set<string>, uid: string)
  {
    && uid in uids && db.Ready(uid)
    && forall v | v in uids && v != uid && db.Ready(v) :: Precedes(db.manifests[v], db.manifests[uid])
  }

  ghost function LastReadyIn(db: Database, uids: set<string>): Option<string>
  {
    if uids == {} then None
    else
      var uid :| uid in uids;
      var rest := LastReadyIn(db, uids - {uid});
      if !db.Ready(uid) then rest
      else if rest.Some? && db.Ready(rest.value) && Precedes(db.manifests[uid], db.manifests[rest.value]) then rest
      else Some(uid)
  }

  lemma {:induction false} LastReadySays(db: Database, uids: set<string>)
    requires forall u | u in db.manifests :: db.manifests[u].uid == u
    ensures var last := LastReadyIn(db, uids);
            if last.Some? then IsLastReady(db, uids, last.value) else forall v | v in uids :: !db.Ready(v)
  {
    if uids != {} {
      var uid :| uid in uids && LastReadyIn(db, uids) ==
        var rest := LastReadyIn(db, uids - {uid});
        if !db.Ready(uid) then rest
        else if rest.Some? && db.Ready(rest.value) && Precedes(db.manifests[uid], db.manifests[rest.value]) then rest
        else Some(uid);
      LastReadySays(db, uids - {uid});
      var rest := LastReadyIn(db, uids - {uid});
      if db.Ready(uid) && rest.Some? {
        PrecedesTotal(db.manifests[uid], db.manifests[rest.value]);
        if !Precedes(db.manifests[uid], db.manifests[rest.value]) {
          forall v | v in uids && v != uid && db.Ready(v) ensures Precedes(db.manifests[v], db.manifests[uid]) {
            if v != rest.value {
              PrecedesTransitive(db.manifests[v], db.manifests[rest.value], db.manifests[uid]);
            }
          }
        }
      }
    }
  }

  lemma LastReadyUnique(db: Database, uids: set<string>, u: string, v: string)
    requires IsLastReady(db, uids, u) && IsLastReady(db, uids, v)
    ensures u == v
  {
    PrecedesTotal(db.manifests[u], db.manifests[v]);
  }

  /** The ready row that comes last in (time, creation, uid). */
  ghost function LastReady(db: Database): Option<string>
  {
    LastReadyIn(db, db.manifests.Keys)
  }

  /** What the scheduler would offer next: the newest ready row, if it is newer than the
      offered watermark or is the set to be offered again. */
  ghost function NewestEligible(db: Database): Option<string>
  {
    var last := LastReady(db);
    if last.None? || db.client.watermark.None? || last == db.client.reoffer then last
    else
      var watermark := db.client.watermark.value.frameSetUid;
      if last.value in db.manifests && watermark in db.manifests
         && Newer(db.manifests[last.value], db.manifests[watermark]) then last
      else None
  }

  /** Whether some ready set is newer than the given one. */
  ghost predicate HasNewerEligible(db: Database, key: FrameSetKey)
  {
    && key.frameSetUid in db.manifests && db.manifests[key.frameSetUid].Key() == key
    && var last := LastReady(db);
       last.Some? && last.value in db.manifests && Newer(db.manifests[last.value], db.manifests[key.frameSetUid])
  }

  // ----- persisting a frame set -----

  /** A frame set handed over for persisting. `uid` is the text derived from its manifest. */
  datatype Submission = Submission(frameSet: FrameSet, uid: string)

  datatype Persisted = Inserted | Known | NotV2 | Invalid | Conflict

  datatype PersistResult = PersistResult(db: Database, outcome: Persisted)

  predicate MemberComplete(frame: SyncFrame)
  {
    && Truthy(frame.sourceFrameUid) && Truthy(frame.source.sessionId) && Truthy(frame.source.cameraStreamId)
    && frame.sequence.Some? && Truthy(frame.contentDigest)
    && frame.archive.state == ARCHIVE_DURABLE && Truthy(frame.archive.filePath)
  }

  predicate MemberInScope(frame: SyncFrame, sessionId: CaptureSessionId, key: AuthorizationKey)
  {
    && frame.scope.tenantId == key.tenantId && frame.scope.siteId == key.siteId
    && frame.scope.processingJobId == key.processingJobId && frame.scope.profileDigest == key.profileDigest
    && frame.scope.captureSessionId.Some? && Declared(frame.scope.captureSessionId.value) == sessionId
    && Truthy(frame.scope.authorizedSubject) && Truthy(frame.scope.sessionTokenJti)
    && Truthy(frame.scope.authorizedCameraId)
    && (key.authorizedSubject.Some? ==>
          frame.scope.authorizedSubject == key.authorizedSubject && frame.scope.sessionTokenJti == key.sessionTokenJti)
  }

  predicate ScopeAgrees(frames: Selection, sessionId: CaptureSessionId, key: AuthorizationKey)
  {
    (Truthy(key.tenantId) || Truthy(key.siteId) || Truthy(key.processingJobId) || Truthy(key.profileDigest)) ==>
      && Truthy(key.tenantId) && Truthy(key.siteId) && Truthy(key.processingJobId) && Truthy(key.profileDigest)
      && (key.authorizedSubject.None? <==> key.sessionTokenJti.None?)
      && forall d | d in frames :: MemberInScope(frames[d], sessionId, key)
  }

  /** What a V2 frame set must satisfy to be persisted. */
  predicate Acceptable(s: Submission)
  {
    var frames, identity := s.frameSet.frames, s.frameSet.identity;
    && identity.sessionId.Some? && identity.sessionId != Some(Declared(""))
    && s.frameSet.captureRunId != "" && s.uid != ""
    && (forall d | d in frames :: MemberComplete(frames[d]))
    && (identity.authorization.Some? ==> ScopeAgrees(frames, identity.sessionId.value, identity.authorization.value))
  }

  predicate SameContent(existing: Manifest, frameSet: FrameSet)
  {
    existing.payload == frameSet.manifest && existing.authorization == frameSet.identity.authorization
  }

  /** All open sessions but one close; the one is created open if it is new. */
  function SessionsAfter(
      sessions: map<CaptureSessionId, RowState>, id: CaptureSessionId): map<CaptureSessionId, RowState>
  {
    var closed := map s | s in sessions :: if s != id then CLOSED else sessions[s];
    if id in closed then closed else closed[id := OPEN]
  }

  function RunsAfter(runs: map<string, RunRow>, id: string, sessionId: CaptureSessionId): map<string, RunRow>
  {
    var closed := map r | r in runs :: if r != id then runs[r].(state := CLOSED) else runs[r];
    if id in closed then closed else closed[id := RunRow(sessionId, OPEN)]
  }

  /** A set with a later time is waiting already. */
  predicate NewerWaits(db: Database, synchronizedAtMs: int)
  {
    exists u | u in db.manifests :: db.InState(u, ELIGIBLE) && db.manifests[u].synchronizedAtMs > synchronizedAtMs
  }

  /** Every waiting set gives way. */
  function AllSuperseded(projections: map<string, Projection>): map<string, Projection>
  {
    map u | u in projections ::
      if projections[u].liveState == ELIGIBLE then projections[u].(liveState := SUPERSEDED_BEFORE_OFFER)
      else projections[u]
  }

  function SourceUids(frames: Selection): set<string>
  {
    set d | d in frames && frames[d].sourceFrameUid.Some? :: frames[d].sourceFrameUid.value
  }

  /** One row per member, by source frame. */
  function MemberRows(frames: Selection, uid: string): map<string, string>
  {
    map source | source in SourceUids(frames) :: uid
  }

  /** The table constraints: run and number, content, and every source frame at most once. */
  predicate Fits(db: Database, s: Submission)
  {
    var frames := s.frameSet.frames;
    && (forall u | u in db.manifests ::
          && !(&& db.manifests[u].captureRunId == s.frameSet.captureRunId
               && db.manifests[u].frameSetId == s.frameSet.frameSetId)
          && db.manifests[u].payload != s.frameSet.manifest)
    && (forall d | d in frames :: OrEmpty(frames[d].sourceFrameUid) !in db.memberSets)
    && (forall d, e | d in frames && e in frames && d != e ::
          && frames[d].sourceFrameUid != frames[e].sourceFrameUid
          && frames[d].source.cameraStreamId != frames[e].source.cameraStreamId)
  }

  function ManifestRow(s: Submission, nowMs: int): Manifest
    requires s.frameSet.identity.sessionId.Some?
  {
    Manifest(
      s.uid, s.frameSet.identity.sessionId.value, s.frameSet.captureRunId, s.frameSet.frameSetId,
      s.frameSet.synchronizedAtMs, nowMs, s.frameSet.identity.authorization, s.frameSet.manifest)
  }

  /** The rows of a new set; it supersedes what waits, or is superseded by something later. */
  function Insert(db: Database, s: Submission, nowMs: int): Database
    requires s.frameSet.identity.sessionId.Some?
  {
    var sessionId := s.frameSet.identity.sessionId.value;
    var late := NewerWaits(db, s.frameSet.synchronizedAtMs);
    db.(
      sessions := SessionsAfter(db.sessions, sessionId),
      runs := RunsAfter(db.runs, s.frameSet.captureRunId, sessionId),
      manifests := db.manifests[s.uid := ManifestRow(s, nowMs)],
      projections := (if late then db.projections else AllSuperseded(db.projections))
        [s.uid := Projection(ARCHIVE_DURABLE, if late then SUPERSEDED_BEFORE_OFFER else ELIGIBLE)],
      memberSets := db.memberSets + MemberRows(s.frameSet.frames, s.uid))
  }

  predicate RunReused(db: Database, s: Submission)
  {
    var run := s.frameSet.captureRunId;
    run in db.runs && Some(db.runs[run].sessionId) != s.frameSet.identity.sessionId
  }

  /** Persisting a frame set is one transaction; a failed one leaves nothing behind. */
  function Persist(db: Database, s: Submission, nowMs: int): PersistResult
  {
    if s.frameSet.identity.mode != V2 then PersistResult(db, NotV2)
    else if !Acceptable(s) then PersistResult(db, Invalid)
    else if s.uid in db.manifests then
      if !SameContent(db.manifests[s.uid], s.frameSet) then PersistResult(db, Conflict)
      else if s.uid in db.projections then PersistResult(db, Known)
      else PersistResult(db.(projections := db.projections[s.uid := Projection(ARCHIVE_DURABLE, ELIGIBLE)]), Known)
    else if RunReused(db, s) || !Fits(db, s) then PersistResult(db, Conflict)
    else PersistResult(Insert(db, s, nowMs), Inserted)
  }

  // ----- claiming, in two steps -----

  /** The second half of a claim: compare-and-set on the empty slot, then on the candidate's row. */
  predicate Claimable(db: Database, uid: string)
  {
    db.client.inFlight.None? && db.Ready(uid)
  }

  function Claim(db: Database, uid: string, credit: CreditIdentity, nowMs: int): Database
    requires Claimable(db, uid)
  {
    db.WithLive(uid, OFFERED).(client := db.client.(
      inFlight := Some(InFlight(uid, credit, nowMs)),
      watermark := Some(db.manifests[uid].Key()),
      reoffer := None))
  }

  // ----- transitions of the set in the slot -----

  predicate MatchesCurrent(db: Database, key: FrameSetKey)
  {
    && db.client.inFlight.Some? && db.client.inFlight.value.uid == key.frameSetUid
    && key.frameSetUid in db.manifests && db.manifests[key.frameSetUid].Key() == key
    && key.frameSetUid in db.projections
  }

  function Transition(db: Database, key: FrameSetKey, state: LiveState, release: bool): Database
  {
    if !MatchesCurrent(db, key) then db
    else
      var moved := db.WithLive(key.frameSetUid, state);
      if release then moved.(client := moved.client.(inFlight := None)) else moved
  }

  function MarkUnresolved(db: Database, key: FrameSetKey): Database
  {
    Transition(db, key, UNRESOLVED, false)
  }

  /** The states a processor may report. */
  predicate Reportable(state: LiveState)
  {
    state == ACCEPTED || state == STARTED || Releases(state)
  }

  predicate Releases(state: LiveState)
  {
    state == REJECTED || state == COMPLETED || state == FAILED || state == RECOVERY_REQUIRED
  }

  function ApplyRemoteStatus(db: Database, key: FrameSetKey, state: LiveState): Database
    requires Reportable(state)
  {
    Transition(db, key, state, Releases(state))
  }

  function ReleaseBeforeSend(db: Database, key: FrameSetKey, state: LiveState): Database
    requires state == EXPIRED_BEFORE_OFFER || state == REJECTED
  {
    Transition(db, key, state, true)
  }

  function RetireEligible(db: Database, key: FrameSetKey, state: LiveState): Database
    requires state == SESSION_INACTIVE || state == REJECTED
  {
    if key.frameSetUid in db.manifests && db.manifests[key.frameSetUid].Key() == key
       && db.InState(key.frameSetUid, ELIGIBLE)
    then db.WithLive(key.frameSetUid, state)
    else db
  }

  function ReconcileNotFound(db: Database, key: FrameSetKey, retryAllowed: bool): Database
  {
    if !MatchesCurrent(db, key) then db
    else
      db.WithLive(key.frameSetUid, if retryAllowed then ELIGIBLE else SUPERSEDED_BEFORE_OFFER).(client := db.client.(
        inFlight := None,
        reoffer := if retryAllowed then Some(key.frameSetUid) else None))
  }

  /** A set the processor does not know is offered again unless something newer waits. */
  ghost function NotFound(db: Database, key: FrameSetKey): Database
  {
    ReconcileNotFound(db, key, !HasNewerEligible(db, key))
  }
}

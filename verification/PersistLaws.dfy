/** Which outcome persisting a frame set has, and which rows it leaves, said of the set and the
    tables alone. */
module PersistLaws {
  import opened Wrappers
  import opened SyncModels
  import opened RelaySpec
  import opened RelayRuns
  import opened RelaySafety
  import opened ManifestArrival

  /** A member with its whole identity whose archive is durable. */
  predicate WholeMember(f: SyncFrame)
  {
    && Given(f.sourceFrameUid) && Given(f.source.sessionId) && Given(f.source.cameraStreamId) && f.sequence.Some?
    && Given(f.contentDigest) && f.archive.state == ARCHIVE_DURABLE && Given(f.archive.filePath)
  }

  /** The member carries the scope of the set, and its own credentials. */
  predicate SharesScope(f: SyncFrame, sessionId: CaptureSessionId, key: AuthorizationKey)
  {
    && f.scope.tenantId == key.tenantId && f.scope.siteId == key.siteId
    && f.scope.processingJobId == key.processingJobId && f.scope.profileDigest == key.profileDigest
    && f.scope.captureSessionId.Some? && sessionId == Declared(f.scope.captureSessionId.value)
    && Given(f.scope.authorizedSubject) && Given(f.scope.sessionTokenJti) && Given(f.scope.authorizedCameraId)
    && (key.authorizedSubject.Some? ==>
          f.scope.authorizedSubject == key.authorizedSubject && f.scope.sessionTokenJti == key.sessionTokenJti)
  }

  /** Either nothing of the scope is given, or all of it, and then every member shares it. */
  predicate ScopeWhole(frames: Selection, sessionId: CaptureSessionId, key: AuthorizationKey)
  {
    || !(Given(key.tenantId) || Given(key.siteId) || Given(key.processingJobId) || Given(key.profileDigest))
    || (&& Given(key.tenantId) && Given(key.siteId) && Given(key.processingJobId) && Given(key.profileDigest)
        && key.authorizedSubject.Some? == key.sessionTokenJti.Some?
        && forall d | d in frames :: SharesScope(frames[d], sessionId, key))
  }

  predicate Whole(s: Submission)
  {
    && s.frameSet.identity.sessionId.Some? && s.frameSet.identity.sessionId.value != Declared("")
    && s.frameSet.captureRunId != "" && s.uid != ""
    && (forall d | d in s.frameSet.frames :: WholeMember(s.frameSet.frames[d]))
    && (s.frameSet.identity.authorization.Some? ==>
          ScopeWhole(s.frameSet.frames, s.frameSet.identity.sessionId.value, s.frameSet.identity.authorization.value))
  }

  /** The row under the uid records the same manifest and authorization. */
  predicate Recorded(db: Database, s: Submission)
  {
    && s.uid in db.manifests && db.manifests[s.uid].payload == s.frameSet.manifest
    && db.manifests[s.uid].authorization == s.frameSet.identity.authorization
  }

  /** What keeps a new set from being stored: its run is another session's; its number in the
      run, its content or a source frame of it is stored already; or two of its members are of
      one source frame or one camera stream. */
  predicate Clashes(db: Database, s: Submission)
  {
    var frames := s.frameSet.frames;
    || (s.frameSet.captureRunId in db.runs
        && Some(db.runs[s.frameSet.captureRunId].sessionId) != s.frameSet.identity.sessionId)
    || (exists u | u in db.manifests ::
          || (db.manifests[u].captureRunId, db.manifests[u].frameSetId)
             == (s.frameSet.captureRunId, s.frameSet.frameSetId)
          || db.manifests[u].payload == s.frameSet.manifest)
    || (exists d | d in frames :: frames[d].sourceFrameUid.Some? && frames[d].sourceFrameUid.value in db.memberSets)
    || (exists d, e | d in frames && e in frames ::
          d != e && (|| frames[d].sourceFrameUid == frames[e].sourceFrameUid
                     || frames[d].source.cameraStreamId == frames[e].source.cameraStreamId))
  }

  lemma MembersWhole(f: SyncFrame)
    ensures MemberComplete(f) <==> WholeMember(f)
  {
  }

  lemma ScopesWhole(frames: Selection, sessionId: CaptureSessionId, key: AuthorizationKey)
    ensures ScopeAgrees(frames, sessionId, key) <==> ScopeWhole(frames, sessionId, key)
  {
    forall d | d in frames
      ensures MemberInScope(frames[d], sessionId, key) <==> SharesScope(frames[d], sessionId, key)
    {
    }
    hide MemberInScope, SharesScope;
  }

  lemma WholeIsAcceptable(s: Submission)
    ensures Acceptable(s) <==> Whole(s)
  {
    forall d | d in s.frameSet.frames
      ensures MemberComplete(s.frameSet.frames[d]) <==> WholeMember(s.frameSet.frames[d])
    {
      MembersWhole(s.frameSet.frames[d]);
    }
    if s.frameSet.identity.sessionId.Some? && s.frameSet.identity.authorization.Some? {
      ScopesWhole(s.frameSet.frames, s.frameSet.identity.sessionId.value, s.frameSet.identity.authorization.value);
    }
    hide MemberComplete, WholeMember, ScopeAgrees, ScopeWhole;
  }

  lemma ClashesDoNotFit(db: Database, s: Submission)
    requires Whole(s)
    ensures RunReused(db, s) || !Fits(db, s) <==> Clashes(db, s)
  {
    var frames := s.frameSet.frames;
    forall d | d in frames ensures frames[d].sourceFrameUid.Some? {
      assert WholeMember(frames[d]);
    }
    hide Whole;
  }

  /** The outcome, each one under its exact condition. */
  lemma {:induction false} PersistOutcome(db: Database, s: Submission, nowMs: int)
    ensures var outcome, known := Persist(db, s, nowMs).outcome, s.uid in db.manifests;
            var v2 := s.frameSet.identity.mode == V2;
            && (outcome == NotV2 <==> !v2)
            && (outcome == Invalid <==> v2 && !Whole(s))
            && (outcome == Known <==> v2 && Whole(s) && Recorded(db, s))
            && (outcome == Conflict <==> v2 && Whole(s) && (if known then !Recorded(db, s) else Clashes(db, s)))
            && (outcome == Inserted <==> v2 && Whole(s) && !known && !Clashes(db, s))
  {
    WholeIsAcceptable(s);
    if Whole(s) { ClashesDoNotFit(db, s); }
    hide Whole, Acceptable, Clashes, Fits, RunReused, Insert;
  }

  // ----- the rows -----

  /** After a new set: its session is open if it is new, and as it was if not; every other
      session is closed. The same for its run, which belongs to the session. */
  lemma {:induction false} InsertedOpens(db: Database, s: Submission, nowMs: int)
    requires Persist(db, s, nowMs).outcome == Inserted
    ensures var after, run := Persist(db, s, nowMs).db, s.frameSet.captureRunId;
            && s.frameSet.identity.sessionId.Some?
            && var session := s.frameSet.identity.sessionId.value;
               && after.sessions.Keys == db.sessions.Keys + {session}
               && (forall a | a in after.sessions ::
                     after.sessions[a]
                     == if a != session then CLOSED else if a in db.sessions then db.sessions[a] else OPEN)
               && after.runs.Keys == db.runs.Keys + {run}
               && (forall r | r in after.runs ::
                     && after.runs[r].sessionId == (if r in db.runs then db.runs[r].sessionId else session)
                     && after.runs[r].state
                        == if r != run then CLOSED else if r in db.runs then db.runs[r].state else OPEN)
  {
    InsertedRows(db, s, nowMs);
    hide Persist;
  }

  /** The new set's own rows, and the rows of its source frames; all other rows stay. */
  lemma {:induction false} InsertedRowsAre(db: Database, s: Submission, nowMs: int)
    requires RowsSound(db) && Persist(db, s, nowMs).outcome == Inserted
    ensures var after, f := Persist(db, s, nowMs).db, s.frameSet;
            && f.identity.sessionId.Some?
            && after.manifests
               == db.manifests[s.uid := Manifest(s.uid, f.identity.sessionId.value, f.captureRunId, f.frameSetId,
                                                 f.synchronizedAtMs, nowMs, f.identity.authorization, f.manifest)]
            && (forall k :: k in after.memberSets <==>
                  k in db.memberSets || exists d :: d in f.frames && f.frames[d].sourceFrameUid == Some(k))
            && (forall k | k in after.memberSets ::
                  after.memberSets[k] == if k in db.memberSets then db.memberSets[k] else s.uid)
            && after.client == db.client
  {
    PersistWaiting(db, s, nowMs);
    PersistOutcome(db, s, nowMs);
    MemberRowsAre(db, s, nowMs);
    hide Persist, Clashes, Whole;
  }

  lemma MemberRowsAre(db: Database, s: Submission, nowMs: int)
    requires Persist(db, s, nowMs).outcome == Inserted
    ensures var after, f := Persist(db, s, nowMs).db, s.frameSet;
            && (forall k :: k in after.memberSets <==>
                  k in db.memberSets || exists d :: d in f.frames && f.frames[d].sourceFrameUid == Some(k))
            && (forall k | k in after.memberSets ::
                  after.memberSets[k] == if k in db.memberSets then db.memberSets[k] else s.uid)
  {
    var f := s.frameSet.frames;
    PersistOutcome(db, s, nowMs);
    assert Persist(db, s, nowMs).db.memberSets == db.memberSets + MemberRows(f, s.uid);
    hide Persist;
    forall d | d in f && f[d].sourceFrameUid.Some? ensures f[d].sourceFrameUid.value in SourceUids(f) {
    }
    forall k | k in SourceUids(f) ensures k !in db.memberSets {
      var d :| d in f && f[d].sourceFrameUid == Some(k);
    }
  }

  /** Where the set stands: it waits unless something waits that is later; then everything that
      waited gives way. Archive states stay. */
  lemma {:induction false} InsertedStands(db: Database, s: Submission, nowMs: int)
    requires RowsSound(db) && Persist(db, s, nowMs).outcome == Inserted
    ensures var after := Persist(db, s, nowMs).db;
            var late := exists u ::
              && u in db.manifests && db.projections[u].liveState == ELIGIBLE
              && db.manifests[u].synchronizedAtMs > s.frameSet.synchronizedAtMs;
            && after.projections.Keys == db.projections.Keys + {s.uid}
            && forall u | u in after.projections ::
                 && after.projections[u].archiveState == ARCHIVE_DURABLE
                 && after.projections[u].liveState
                    == if u == s.uid then (if late then SUPERSEDED_BEFORE_OFFER else ELIGIBLE)
                       else if !late && db.projections[u].liveState == ELIGIBLE then SUPERSEDED_BEFORE_OFFER
                       else db.projections[u].liveState
  {
    PersistWaiting(db, s, nowMs);
    hide Persist;
  }

  /** Any other outcome writes nothing, but for a known set that has lost its projection, which
      waits again. */
  lemma {:induction false} OthersWriteNothing(db: Database, s: Submission, nowMs: int)
    requires Persist(db, s, nowMs).outcome != Inserted
    ensures Persist(db, s, nowMs).db
            == if Persist(db, s, nowMs).outcome == Known && s.uid !in db.projections
               then db.(projections := db.projections[s.uid := Projection(ARCHIVE_DURABLE, ELIGIBLE)])
               else db
  {
    hide Acceptable, Fits, RunReused, SameContent, Insert;
  }

  /** A step that persists a set does just that. */
  lemma {:induction false} PersistStep(relay: Relay, s: Submission, nowMs: int)
    ensures Next(relay, PersistSet(s, nowMs)) == Relay(Persist(relay.db, s, nowMs).db, relay.held, relay.offers)
  {
    hide Persist;
  }
}

/** The store as the collector runs it: an object whose tables each call rewrites in one
    transaction, and the client's handling of a reconciliation answer on top of it. */
module LatestLive {
  import opened Wrappers
  import opened SyncModels
  import opened RelaySpec
  import Reconciliation
  import ProcessingJobs

  /** Every open row but one is closed. */
  method CloseOthers(sessions: map<CaptureSessionId, RowState>, keep: CaptureSessionId)
    returns (closed: map<CaptureSessionId, RowState>)
    ensures closed == map s | s in sessions :: if s != keep then CLOSED else sessions[s]
  {
    closed := sessions;
    var rest := sessions.Keys;
    while rest != {}
      invariant rest <= sessions.Keys && closed.Keys == sessions.Keys
      invariant forall s | s in sessions :: closed[s] == if s !in rest && s != keep then CLOSED else sessions[s]
      decreases |rest|
    {
      var s :| s in rest;
      rest := rest - {s};
      if s != keep && closed[s] == OPEN {
        closed := closed[s := CLOSED];
      }
    }
  }

  method CloseOtherRuns(runs: map<string, RunRow>, keep: string) returns (closed: map<string, RunRow>)
    ensures closed == map r | r in runs :: if r != keep then runs[r].(state := CLOSED) else runs[r]
  {
    closed := runs;
    var rest := runs.Keys;
    while rest != {}
      invariant rest <= runs.Keys && closed.Keys == runs.Keys
      invariant forall r | r in runs ::
        closed[r] == if r !in rest && r != keep then runs[r].(state := CLOSED) else runs[r]
      decreases |rest|
    {
      var r :| r in rest;
      rest := rest - {r};
      if r != keep && closed[r].state == OPEN {
        closed := closed[r := closed[r].(state := CLOSED)];
      }
    }
  }

  /** The set's session, created open if it is new, all others closed. */
  method OpenSession(sessions: map<CaptureSessionId, RowState>, id: CaptureSessionId)
    returns (updated: map<CaptureSessionId, RowState>)
    ensures updated == SessionsAfter(sessions, id)
  {
    updated := CloseOthers(sessions, id);
    if id !in updated {
      updated := updated[id := OPEN];
    }
  }

  method OpenRun(
      runs: map<string, RunRow>, id: string, sessionId: CaptureSessionId) returns (updated: map<string, RunRow>)
    ensures updated == RunsAfter(runs, id, sessionId)
  {
    updated := CloseOtherRuns(runs, id);
    if id !in updated {
      updated := updated[id := RunRow(sessionId, OPEN)];
    }
  }

  /** Every waiting row is superseded. */
  method SupersedeAll(projections: map<string, Projection>) returns (superseded: map<string, Projection>)
    ensures superseded == AllSuperseded(projections)
  {
    superseded := projections;
    var rest := projections.Keys;
    while rest != {}
      invariant rest <= projections.Keys && superseded.Keys == projections.Keys
      invariant forall u | u in projections ::
        superseded[u] == if u !in rest && projections[u].liveState == ELIGIBLE
                         then projections[u].(liveState := SUPERSEDED_BEFORE_OFFER) else projections[u]
      decreases |rest|
    {
      var u :| u in rest;
      rest := rest - {u};
      if superseded[u].liveState == ELIGIBLE {
        superseded := superseded[u := superseded[u].(liveState := SUPERSEDED_BEFORE_OFFER)];
      }
    }
  }

  /** The ready row that comes last in the order of the lookup. */
  method FindLastReady(db: Database) returns (last: Option<string>)
    requires forall u | u in db.manifests :: db.manifests[u].uid == u
    ensures last == LastReady(db)
  {
    last := None;
    var rest := db.manifests.Keys;
    while rest != {}
      invariant rest <= db.manifests.Keys
      invariant last.Some? ==> IsLastReady(db, db.manifests.Keys - rest, last.value)
      invariant last.None? ==> forall u | u in db.manifests.Keys - rest :: !db.Ready(u)
      decreases |rest|
    {
      var u :| u in rest;
      LastReadyGrows(db, db.manifests.Keys - rest, last, u);
      rest := rest - {u};
      assert db.manifests.Keys - rest == db.manifests.Keys - (rest + {u}) + {u};
      if db.Ready(u) && (last.None? || Precedes(db.manifests[last.value], db.manifests[u])) {
        last := Some(u);
      }
    }
    LastReadySays(db, db.manifests.Keys);
    assert db.manifests.Keys - {} == db.manifests.Keys;
    if last.Some? && LastReady(db).Some? {
      LastReadyUnique(db, db.manifests.Keys, last.value, LastReady(db).value);
    }
  }

  /** One more row either comes last or does not. */
  lemma LastReadyGrows(db: Database, uids: set<string>, last: Option<string>, u: string)
    requires forall v | v in db.manifests :: db.manifests[v].uid == v
    requires u in db.manifests && u !in uids
    requires if last.Some? then IsLastReady(db, uids, last.value) else forall v | v in uids :: !db.Ready(v)
    ensures var later := db.Ready(u) && (last.None? || Precedes(db.manifests[last.value], db.manifests[u]));
            var next := if later then Some(u) else last;
            if next.Some? then IsLastReady(db, uids + {u}, next.value) else forall v | v in uids + {u} :: !db.Ready(v)
  {
    if db.Ready(u) && last.Some? {
      PrecedesTotal(db.manifests[last.value], db.manifests[u]);
      if Precedes(db.manifests[last.value], db.manifests[u]) {
        forall v | v in uids && db.Ready(v) ensures Precedes(db.manifests[v], db.manifests[u]) {
          if v != last.value {
            PrecedesTransitive(db.manifests[v], db.manifests[last.value], db.manifests[u]);
          }
        }
      }
    }
  }

  class LatestLiveStore {
    var manifests: map<string, Manifest>
    var projections: map<string, Projection>
    var memberSets: map<string, string>
    var sessions: map<CaptureSessionId, RowState>
    var runs: map<string, RunRow>
    var inFlight: Option<InFlight>
    var watermark: Option<FrameSetKey>
    var reoffer: Option<string>
    var processingJob: Option<ProcessingJobs.Binding>

    function Tables(): Database
      reads this
    {
      Database(
        manifests, projections, memberSets, sessions, runs, ClientState(inFlight, watermark, reoffer, processingJob))
    }

    /** Rows are stored under their own uid. */
    ghost predicate Valid()
      reads this`manifests
    {
      forall u | u in manifests :: manifests[u].uid == u
    }

    constructor ()
      ensures Valid() && Tables() == EMPTY_DATABASE
    {
      manifests, projections, memberSets, sessions, runs := map[], map[], map[], map[], map[];
      inFlight, watermark, reoffer, processingJob := None, None, None, None;
    }

    /** The set's own session and run are the only ones left open. */
    method Rotate(sessionId: CaptureSessionId, captureRunId: string)
      modifies this`sessions, this`runs
      ensures Tables() == old(Tables()).(
        sessions := SessionsAfter(old(sessions), sessionId), runs := RunsAfter(old(runs), captureRunId, sessionId))
    {
      hide SessionsAfter, RunsAfter;
      sessions := OpenSession(sessions, sessionId);
      runs := OpenRun(runs, captureRunId, sessionId);
    }

    /** Writes the rows of a new set in one transaction. */
    method InsertRows(s: Submission, nowMs: int)
      requires s.frameSet.identity.sessionId.Some?
      requires Valid()
      modifies this
      ensures Valid() && Tables() == Insert(old(Tables()), s, nowMs)
    {
      hide NewerWaits, SessionsAfter, RunsAfter, AllSuperseded, MemberRows;
      var late := NewerWaits(Tables(), s.frameSet.synchronizedAtMs);
      Rotate(s.frameSet.identity.sessionId.value, s.frameSet.captureRunId);
      if !late {
        projections := SupersedeAll(projections);
      }
      manifests := manifests[s.uid := ManifestRow(s, nowMs)];
      projections := projections[s.uid := Projection(ARCHIVE_DURABLE, if late
          then SUPERSEDED_BEFORE_OFFER else ELIGIBLE)];
      memberSets := memberSets + MemberRows(s.frameSet.frames, s.uid);
    }

    /** Persists a frame set; a set that is known, invalid or in conflict leaves the tables alone. */
    method PersistFrameSetManifest(s: Submission, nowMs: int) returns (outcome: Persisted)
      requires Valid()
      modifies this
      ensures Valid() && PersistResult(Tables(), outcome) == Persist(old(Tables()), s, nowMs)
    {
      if s.frameSet.identity.mode != V2 {
        return NotV2;
      }
      if !Acceptable(s) {
        return Invalid;
      }
      if s.uid in manifests {
        if !SameContent(manifests[s.uid], s.frameSet) {
          return Conflict;
        }
        if s.uid !in projections {
          projections := projections[s.uid := Projection(ARCHIVE_DURABLE, ELIGIBLE)];
        }
        return Known;
      }
      if RunReused(Tables(), s) || !Fits(Tables(), s) {
        return Conflict;
      }
      InsertRows(s, nowMs);
      return Inserted;
    }

    /** The newest ready row, compared with the offered watermark. */
    method FindNewestEligible() returns (candidate: Option<string>)
      requires Valid()
      ensures candidate == NewestEligible(Tables())
    {
      candidate := FindLastReady(Tables());
      if candidate.None? || watermark.None? || candidate == reoffer {
        return;
      }
      if candidate.value in manifests && watermark.value.frameSetUid in manifests
         && Newer(manifests[candidate.value], manifests[watermark.value.frameSetUid])
      {
        return;
      }
      candidate := None;
    }

    /** The first half of a claim: with the slot taken there is nothing to claim. */
    method ReadCandidate() returns (candidate: Option<string>)
      requires Valid()
      ensures candidate == if inFlight.Some? then None else NewestEligible(Tables())
    {
      if inFlight.Some? {
        return None;
      }
      candidate := FindNewestEligible();
    }

    /** The second half: compare-and-set on the slot, then on the candidate's row; either may fail. */
    method CommitClaim(uid: string, credit: CreditIdentity, atMs: int) returns (claimed: bool)
      requires Valid()
      modifies this
      ensures Valid() && claimed == Claimable(old(Tables()), uid)
      ensures Tables() == if claimed then Claim(old(Tables()), uid, credit, atMs) else old(Tables())
    {
      if inFlight.Some? || !Tables().Ready(uid) {
        return false;
      }
      inFlight := Some(InFlight(uid, credit, atMs));
      watermark := Some(manifests[uid].Key());
      reoffer := None;
      projections := projections[uid := projections[uid].(liveState := OFFERED)];
      return true;
    }

    /** Both halves without interruption. */
    method ClaimLatest(credit: CreditIdentity, atMs: int) returns (claimed: Option<string>)
      requires Valid()
      modifies this
      ensures Valid()
      ensures var before := old(Tables());
              var candidate := if before.client.inFlight.Some? then None else NewestEligible(before);
              if candidate.Some? && Claimable(before, candidate.value)
              then claimed == candidate && Tables() == Claim(before, candidate.value, credit, atMs)
              else claimed == None && Tables() == before
    {
      var candidate := ReadCandidate();
      if candidate.None? {
        return None;
      }
      var done := CommitClaim(candidate.value, credit, atMs);
      return if done then candidate else None;
    }

    method TransitionCurrent(key: FrameSetKey, state: LiveState, release: bool) returns (applied: bool)
      requires Valid()
      modifies this
      ensures Valid() && applied == MatchesCurrent(old(Tables()), key)
      ensures Tables() == Transition(old(Tables()), key, state, release)
    {
      if !MatchesCurrent(Tables(), key) {
        return false;
      }
      projections := projections[key.frameSetUid := projections[key.frameSetUid].(liveState := state)];
      if release {
        inFlight := None;
      }
      return true;
    }

    method MarkUnresolved(key: FrameSetKey) returns (applied: bool)
      requires Valid()
      modifies this
      ensures Valid() && applied == MatchesCurrent(old(Tables()), key)
      ensures Tables() == RelaySpec.MarkUnresolved(old(Tables()), key)
    {
      applied := TransitionCurrent(key, UNRESOLVED, false);
    }

    /** A status the store does not support is an error and changes nothing. */
    method ApplyRemoteStatus(key: FrameSetKey, status: Option<LiveState>) returns (supported: bool)
      requires Valid()
      modifies this
      ensures Valid() && supported == Reconciliation.Supported(Reconciliation.Report(key, status))
      ensures Tables()
              == if supported then RelaySpec.ApplyRemoteStatus(old(Tables()), key, status.value) else old(Tables())
    {
      if status.None? || !Reportable(status.value) {
        return false;
      }
      var _ := TransitionCurrent(key, status.value, Releases(status.value));
      return true;
    }

    method ReleaseBeforeSend(key: FrameSetKey, state: LiveState) returns (applied: bool)
      requires Valid() && (state == EXPIRED_BEFORE_OFFER || state == REJECTED)
      modifies this
      ensures Valid() && Tables() == RelaySpec.ReleaseBeforeSend(old(Tables()), key, state)
    {
      applied := TransitionCurrent(key, state, true);
    }

    method RetireEligible(key: FrameSetKey, state: LiveState) returns (retired: bool)
      requires Valid() && (state == SESSION_INACTIVE || state == REJECTED)
      modifies this
      ensures Valid() && Tables() == RelaySpec.RetireEligible(old(Tables()), key, state)
    {
      if key.frameSetUid !in manifests || manifests[key.frameSetUid].Key() != key
         || key.frameSetUid !in projections || projections[key.frameSetUid].liveState != ELIGIBLE
      {
        return false;
      }
      projections := projections[key.frameSetUid := projections[key.frameSetUid].(liveState := state)];
      return true;
    }

    method FindNewerEligible(key: FrameSetKey) returns (newer: bool)
      requires Valid()
      ensures newer == HasNewerEligible(Tables(), key)
    {
      if key.frameSetUid !in manifests || manifests[key.frameSetUid].Key() != key {
        return false;
      }
      var last := FindLastReady(Tables());
      return last.Some? && last.value in manifests && Newer(manifests[last.value], manifests[key.frameSetUid]);
    }

    method ReconcileNotFound(key: FrameSetKey, retryAllowed: bool) returns (applied: bool)
      requires Valid()
      modifies this
      ensures Valid() && Tables() == RelaySpec.ReconcileNotFound(old(Tables()), key, retryAllowed)
    {
      if !MatchesCurrent(Tables(), key) {
        return false;
      }
      projections := projections[key.frameSetUid :=
        projections[key.frameSetUid].(liveState := if retryAllowed then ELIGIBLE else SUPERSEDED_BEFORE_OFFER)];
      inFlight := None;
      reoffer := if retryAllowed then Some(key.frameSetUid) else None;
      return true;
    }

    method ApplyReports(reports: seq<Reconciliation.Report>) returns (supported: bool)
      requires Valid()
      modifies this
      ensures Valid() && Tables() == Reconciliation.ApplyReports(old(Tables()), reports)
      ensures supported <==> forall i | 0 <= i < |reports| :: Reconciliation.Supported(reports[i])
    {
      var i := 0;
      while i < |reports|
        invariant Valid() && i <= |reports|
        invariant forall j | 0 <= j < i :: Reconciliation.Supported(reports[j])
        invariant Reconciliation.ApplyReports(Tables(), reports[i..])
                  == Reconciliation.ApplyReports(old(Tables()), reports)
      {
        var ok := ApplyRemoteStatus(reports[i].key, reports[i].status);
        if !ok {
          return false;
        }
        i := i + 1;
      }
      return true;
    }

    /** The client's handling of an answer: apply what it reports; if it is complete and does
        not mention the set in the slot, that set is offered again or gives way. */
    method ApplyReconciliation(reports: seq<Reconciliation.Report>, complete: bool) returns (reconciled: Option<bool>)
      requires Valid()
      modifies this
      ensures Valid()
      ensures match Reconciliation.ApplyReconciliation(old(Tables()), reports, complete)
              case Failed(db) => Tables() == db && reconciled == None
              case Done(db, result) => Tables() == db && reconciled == Some(result)
    {
      var supported := ApplyReports(reports);
      if !supported {
        return None;
      }
      if complete && inFlight.Some? && inFlight.value.uid in manifests
         && inFlight.value.uid !in Reconciliation.Mentioned(reports)
      {
        var key := manifests[inFlight.value.uid].Key();
        var newer := FindNewerEligible(key);
        var _ := ReconcileNotFound(key, !newer);
        return Some(true);
      }
      return Some(complete);
    }

    /** Refused if it would give the bound run another job. */
    method BindProcessingJob(captureRunId: string, jobId: string) returns (taken: bool)
      requires Valid()
      modifies this`processingJob
      ensures taken == ProcessingJobs.Accepts(old(processingJob), ProcessingJobs.Binding(captureRunId, jobId))
      ensures processingJob == ProcessingJobs.AfterBind(old(processingJob), ProcessingJobs.Binding(captureRunId, jobId))
    {
      if captureRunId == "" || jobId == "" {
        return false;
      }
      if processingJob.Some? && processingJob.value.captureRunId == captureRunId && processingJob.value.jobId != jobId {
        return false;
      }
      processingJob := Some(ProcessingJobs.Binding(captureRunId, jobId));
      return true;
    }

    function ProcessingJobFor(captureRunId: string): (jobId: Option<string>)
      reads this`processingJob
      ensures jobId == ProcessingJobs.JobFor(processingJob, captureRunId)
    {
      match processingJob
      case None => None
      case Some(binding) => if binding.captureRunId != captureRunId then None else Some(binding.jobId)
    }
  }
}

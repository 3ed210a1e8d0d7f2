/** What each message about a set does to its row and to the slot, said of the tables alone. */
module StatusLaws {
  import opened Wrappers
  import opened SyncModels
  import opened RelaySpec
  import opened RelayRuns
  import opened Reconciliation

  /** The set is stored under this key and is the one in the slot. */
  predicate InSlot(db: Database, key: FrameSetKey)
  {
    && db.client.inFlight.Some? && db.client.inFlight.value.uid == key.frameSetUid
    && key.frameSetUid in db.projections && key.frameSetUid in db.manifests
    && var row := db.manifests[key.frameSetUid];
       row.captureRunId == key.captureRunId && row.frameSetId == key.frameSetId && row.uid == key.frameSetUid
  }

  /** The tables with one row's live state changed, and the slot as given. */
  function Changed(db: Database, uid: string, state: LiveState, inFlight: Option<InFlight>): Database
    requires uid in db.projections
  {
    db.(projections := db.projections[uid := Projection(db.projections[uid].archiveState, state)],
        client := db.client.(inFlight := inFlight))
  }

  predicate Ends(state: LiveState)
  {
    state in {REJECTED, COMPLETED, FAILED, RECOVERY_REQUIRED}
  }

  /** The six statuses that a processor may report. */
  lemma {:induction false} SupportedStatuses(report: Report)
    ensures Supported(report)
            <==> && report.status.Some?
                 && report.status.value in {ACCEPTED, STARTED, REJECTED, COMPLETED, FAILED, RECOVERY_REQUIRED}
    ensures report.status.Some? ==> (WellFormed(Reported(report.key, report.status.value)) <==> Supported(report))
  {
  }

  /** A reported status becomes the status of the set in the slot; an end frees the slot. */
  lemma {:induction false} ReportTakesEffect(relay: Relay, key: FrameSetKey, state: LiveState)
    requires state in {ACCEPTED, STARTED, REJECTED, COMPLETED, FAILED, RECOVERY_REQUIRED}
    ensures var db, after := relay.db, Next(relay, Reported(key, state));
            && after.held == relay.held && after.offers == relay.offers
            && after.db == if InSlot(db, key)
                           then Changed(db, key.frameSetUid, state, if Ends(state) then None else db.client.inFlight)
                           else db
  {
  }

  /** An interrupted set stays in the slot, unresolved. */
  lemma {:induction false} InterruptionTakesEffect(relay: Relay, key: FrameSetKey)
    ensures var db, after := relay.db, Next(relay, Interrupted(key));
            && after.held == relay.held && after.offers == relay.offers
            && after.db == if InSlot(db, key) then Changed(db, key.frameSetUid, UNRESOLVED, db.client.inFlight) else db
  {
  }

  /** A set released before it was sent leaves the slot in the given end state. */
  lemma {:induction false} ReleaseTakesEffect(relay: Relay, key: FrameSetKey, state: LiveState)
    requires state in {EXPIRED_BEFORE_OFFER, REJECTED}
    ensures var db, after := relay.db, Next(relay, Released(key, state));
            && after.held == relay.held && after.offers == relay.offers
            && after.db == if InSlot(db, key) then Changed(db, key.frameSetUid, state, None) else db
  {
  }

  /** Only a waiting set under its own key is retired; the slot is not touched. */
  lemma {:induction false} RetirementTakesEffect(relay: Relay, key: FrameSetKey, state: LiveState)
    requires state in {SESSION_INACTIVE, REJECTED}
    ensures var db, after, uid := relay.db, Next(relay, Retired(key, state)), key.frameSetUid;
            && after.held == relay.held && after.offers == relay.offers
            && after.db
               == if && uid in db.manifests && uid in db.projections && db.projections[uid].liveState == ELIGIBLE
                     && db.manifests[uid].uid == uid && db.manifests[uid].captureRunId == key.captureRunId
                     && db.manifests[uid].frameSetId == key.frameSetId
                  then Changed(db, uid, state, db.client.inFlight)
                  else db
  {
  }

  /** Ready to be offered: waiting, and the archive durable. */
  predicate Offered(db: Database, u: string)
  {
    && u in db.manifests && u in db.projections
    && db.projections[u] == Projection(ARCHIVE_DURABLE, ELIGIBLE)
  }

  /** The ready set that all others precede is newer than the given one. */
  ghost predicate SomethingNewer(db: Database, uid: string)
    requires uid in db.manifests
  {
    exists u ::
      && Offered(db, u) && Newer(db.manifests[u], db.manifests[uid])
      && forall v | v != u && Offered(db, v) :: Precedes(db.manifests[v], db.manifests[u])
  }

  lemma NewerIsSomething(db: Database, key: FrameSetKey)
    requires RowsKeyed(db) && InSlot(db, key)
    ensures HasNewerEligible(db, key) <==> SomethingNewer(db, key.frameSetUid)
  {
    LastReadySays(db, db.manifests.Keys);
    assert forall u :: Offered(db, u) <==> db.Ready(u);
    var last := LastReady(db);
    if SomethingNewer(db, key.frameSetUid) {
      var u :| && Offered(db, u) && Newer(db.manifests[u], db.manifests[key.frameSetUid])
               && forall v | v != u && Offered(db, v) :: Precedes(db.manifests[v], db.manifests[u]);
      assert IsLastReady(db, db.manifests.Keys, u);
      LastReadyUnique(db, db.manifests.Keys, u, last.value);
    }
  }

  /** A set the processor does not know leaves the slot: it gives way if the last ready set is
      newer, and else waits again, marked. */
  lemma {:induction false} AbsenceTakesEffect(relay: Relay, key: FrameSetKey)
    requires RowsKeyed(relay.db)
    ensures var db, after := relay.db, Next(relay, Missing(key));
            && after.held == relay.held && after.offers == relay.offers
            && after.db
               == if !InSlot(db, key) then db
                  else if SomethingNewer(db, key.frameSetUid) then
                    Changed(db, key.frameSetUid, SUPERSEDED_BEFORE_OFFER, None).(
                      client := db.client.(inFlight := None, reoffer := None))
                  else
                    Changed(db, key.frameSetUid, ELIGIBLE, None).(
                      client := db.client.(inFlight := None, reoffer := Some(key.frameSetUid)))
  {
    if InSlot(relay.db, key) { NewerIsSomething(relay.db, key); }
    hide HasNewerEligible, SomethingNewer, RowsKeyed;
  }

  /** A claimer's candidate is taken exactly if the slot is free and the candidate is still
      ready; it is then offered, in the slot and the watermark. */
  lemma {:induction false} ClaimTakesEffect(relay: Relay, claimer: nat, credit: CreditIdentity, atMs: int)
    requires claimer in relay.held
    ensures var db, uid, after := relay.db, relay.held[claimer], Next(relay, CommitClaim(claimer, credit, atMs));
            && after.held == relay.held - {claimer}
            && (if db.client.inFlight.None? && Offered(db, uid) then
                  && after.db
                     == Changed(db, uid, OFFERED, None).(
                          client := db.client.(
                            inFlight := Some(InFlight(uid, credit, atMs)),
                            watermark := Some(FrameSetKey(db.manifests[uid].captureRunId, db.manifests[uid].frameSetId,
                                                          db.manifests[uid].uid)),
                            reoffer := None))
                  && after.offers == relay.offers + [Offer(uid, db.client.reoffer == Some(uid))]
                else after.db == db && after.offers == relay.offers)
  {
  }

  // ----- a whole answer -----

  /** The status a series of reports leaves: that of the first report that ends the set, else
      that of the last report on it. */
  ghost predicate Decides(reports: seq<Report>, key: FrameSetKey, i: nat)
  {
    && i < |reports| && reports[i].key == key && reports[i].status.Some?
    && (forall j | 0 <= j < i && reports[j].key == key && reports[j].status.Some? :: !Ends(reports[j].status.value))
    && (Ends(reports[i].status.value) || forall j | i < j < |reports| :: reports[j].key != key)
  }

  lemma OneReportApplies(db: Database, report: Report)
    requires Supported(report)
    ensures ApplyRemoteStatus(db, report.key, report.status.value)
            == if InSlot(db, report.key)
               then Changed(db, report.key.frameSetUid, report.status.value,
                            if Ends(report.status.value) then None else db.client.inFlight)
               else db
  {
  }

  lemma {:induction false} EmptySlotStays(db: Database, reports: seq<Report>)
    requires db.client.inFlight.None? && forall i | 0 <= i < |reports| :: Supported(reports[i])
    ensures ApplyReports(db, reports) == db
    decreases |reports|
  {
    if reports != [] {
      OneReportApplies(db, reports[0]);
      hide ApplyRemoteStatus;
      EmptySlotStays(db, reports[1..]);
    }
  }

  lemma LaterDecides(reports: seq<Report>, key: FrameSetKey, i: nat)
    requires reports != [] && Decides(reports[1..], key, i)
    requires reports[0].key == key && reports[0].status.Some? ==> !Ends(reports[0].status.value)
    ensures Decides(reports, key, i + 1)
  {
    var rest := reports[1..];
    assert reports[i + 1] == rest[i];
    forall j | 0 <= j < i + 1 && reports[j].key == key && reports[j].status.Some?
      ensures !Ends(reports[j].status.value)
    {
      if j > 0 { assert reports[j] == rest[j - 1]; }
    }
    forall j | i + 1 < j < |reports| && !Ends(reports[i + 1].status.value) ensures reports[j].key != key {
      assert reports[j] == rest[j - 1];
    }
  }

  /** The tables after the status has been reported of the set in the slot. */
  function WithStatus(db: Database, uid: string, state: LiveState): Database
    requires uid in db.projections
  {
    Changed(db, uid, state, if Ends(state) then None else db.client.inFlight)
  }

  /** No report is on the set and nothing changes, or the deciding one takes effect. */
  ghost predicate Answered(db: Database, after: Database, reports: seq<Report>, key: FrameSetKey)
    requires key.frameSetUid in db.projections
  {
    if forall i | 0 <= i < |reports| :: reports[i].key != key then after == db
    else
      exists i: nat ::
        Decides(reports, key, i) && after == WithStatus(db, key.frameSetUid, reports[i].status.value)
  }

  lemma LaterStatus(db: Database, uid: string, first: LiveState, second: LiveState)
    requires uid in db.projections && !Ends(first)
    ensures uid in WithStatus(db, uid, first).projections
    ensures WithStatus(WithStatus(db, uid, first), uid, second) == WithStatus(db, uid, second)
  {
  }

  lemma AnsweredLater(db: Database, next: Database, after: Database, reports: seq<Report>, key: FrameSetKey)
    requires key.frameSetUid in db.projections && key.frameSetUid in next.projections
    requires reports != [] && Answered(next, after, reports[1..], key)
    requires if reports[0].key != key then next == db
             else
               && reports[0].status.Some? && !Ends(reports[0].status.value)
               && next == WithStatus(db, key.frameSetUid, reports[0].status.value)
    ensures Answered(db, after, reports, key)
  {
    var rest := reports[1..];
    hide WithStatus, Ends;
    if forall i | 0 <= i < |rest| :: rest[i].key != key {
      assert forall j | 0 < j < |reports| :: reports[j] == rest[j - 1];
      assert reports[0].key == key ==> Decides(reports, key, 0);
    } else {
      var i: nat :| Decides(rest, key, i) && after == WithStatus(next, key.frameSetUid, rest[i].status.value);
      LaterDecides(reports, key, i);
      assert reports[i + 1] == rest[i];
      if reports[0].key == key {
        LaterStatus(db, key.frameSetUid, reports[0].status.value, rest[i].status.value);
      }
    }
  }

  /** Of a whole series of supported reports only those on the set in the slot count, and of
      these the first end, or else the last one. */
  lemma {:induction false} ReportsDecide(db: Database, reports: seq<Report>, key: FrameSetKey)
    requires InSlot(db, key) && forall i | 0 <= i < |reports| :: Supported(reports[i])
    ensures Answered(db, ApplyReports(db, reports), reports, key)
    decreases |reports|
  {
    if reports != [] {
      var report, rest := reports[0], reports[1..];
      var next := ApplyRemoteStatus(db, report.key, report.status.value);
      OneReportApplies(db, report);
      hide ApplyRemoteStatus, Answered;
      if report.key == key && Ends(report.status.value) {
        EmptySlotStays(next, rest);
        EndDecides(db, reports, key);
      } else {
        if report.key != key { OtherKey(db, report.key, key); }
        ReportsDecide(next, rest, key);
        AnsweredLater(db, next, ApplyReports(next, rest), reports, key);
      }
    }
  }

  lemma EndDecides(db: Database, reports: seq<Report>, key: FrameSetKey)
    requires key.frameSetUid in db.projections && reports != [] && reports[0].key == key
    requires reports[0].status.Some? && Ends(reports[0].status.value)
    ensures Answered(db, WithStatus(db, key.frameSetUid, reports[0].status.value), reports, key)
  {
    assert Decides(reports, key, 0);
  }

  lemma OtherKey(db: Database, other: FrameSetKey, key: FrameSetKey)
    requires InSlot(db, key) && other != key
    ensures !InSlot(db, other)
  {
  }

  /** The first report that is not supported stands at this place. */
  ghost predicate FirstUnsupported(reports: seq<Report>, k: nat)
  {
    k < |reports| && !Supported(reports[k]) && forall i | 0 <= i < k :: Supported(reports[i])
  }

  lemma {:induction false} AppliedUpTo(db: Database, reports: seq<Report>, k: nat)
    requires FirstUnsupported(reports, k)
    ensures ApplyReports(db, reports) == ApplyReports(db, reports[..k])
    decreases |reports|
  {
    if k > 0 {
      hide ApplyRemoteStatus, Supported;
      assert reports[..k][1..] == reports[1..][..k - 1] && reports[..k][0] == reports[0];
      AppliedUpTo(ApplyRemoteStatus(db, reports[0].key, reports[0].status.value), reports[1..], k - 1);
    }
  }

  lemma {:induction false} SomeFirst(reports: seq<Report>) returns (k: nat)
    requires exists i :: 0 <= i < |reports| && !Supported(reports[i])
    ensures FirstUnsupported(reports, k)
  {
    hide Supported;
    k := 0;
    while Supported(reports[k])
      invariant k < |reports| && forall i | 0 <= i < k :: Supported(reports[i])
      decreases |reports| - k
    {
      k := k + 1;
    }
  }

  /** The set in the slot is not mentioned by the reports. */
  predicate Unmentioned(db: Database, reports: seq<Report>)
  {
    && db.client.inFlight.Some? && db.client.inFlight.value.uid in db.manifests
    && forall i | 0 <= i < |reports| :: reports[i].key.frameSetUid != db.client.inFlight.value.uid
  }

  /** An answer fails at its first unsupported status, after the reports before it. Otherwise all
      reports are applied; and if the answer is complete and does not mention what is then in the
      slot, that set is missing. The answer reconciles exactly if it is complete. */
  lemma {:induction false} AnswerTakesEffect(db: Database, reports: seq<Report>, complete: bool)
    ensures var answer, applied := ApplyReconciliation(db, reports, complete), ApplyReports(db, reports);
            && (answer.Failed? <==> exists i :: 0 <= i < |reports| && !Supported(reports[i]))
            && (answer.Failed? ==>
                  exists k: nat :: FirstUnsupported(reports, k) && answer.db == ApplyReports(db, reports[..k]))
            && (answer.Done? ==>
                  && answer.reconciled == complete
                  && answer.db
                     == if complete && Unmentioned(applied, reports)
                        then Next(Relay(applied, map[], []),
                                  Missing(applied.manifests[applied.client.inFlight.value.uid].Key())).db
                        else applied)
  {
    if exists i :: 0 <= i < |reports| && !Supported(reports[i]) {
      var k := SomeFirst(reports);
      AppliedUpTo(db, reports, k);
    }
    hide Supported, ApplyReports, NotFound;
  }

  /** A claimer reads the greatest set that may be offered, if the slot is free. */
  lemma {:induction false} ReadTakesGreatest(relay: Relay, claimer: nat)
    requires RowsKeyed(relay.db) && Coherent(relay.db.manifests)
    requires relay.db.client.watermark.Some? && relay.db.client.reoffer.Some? ==>
               relay.db.client.reoffer.value == relay.db.client.watermark.value.frameSetUid
    ensures var after := Next(relay, ReadCandidate(claimer));
            && after.db == relay.db && after.offers == relay.offers
            && (if relay.db.client.inFlight.Some? || forall u :: !Offerable(relay.db, u) then after.held == relay.held
                else exists u :: IsGreatestOfferable(relay.db, u) && after.held == relay.held[claimer := u])
  {
    NewestRowEqualsFullScan(relay.db);
    hide NewestEligible, Coherent;
  }
}

/** A complete answer to a reconciliation request settles the slot. */
module Reconciliation {
  import opened Wrappers
  import opened RelaySpec
  import opened RelayRuns
  import opened RelaySafety

  /** What the processor says about a set; `None` is a status the store does not support. */
  datatype Report = Report(key: FrameSetKey, status: Option<LiveState>)

  predicate Supported(report: Report)
  {
    report.status.Some? && Reportable(report.status.value)
  }

  /** Reports are applied in turn until one is not supported. */
  function ApplyReports(db: Database, reports: seq<Report>): Database
    decreases |reports|
  {
    if reports == [] || !Supported(reports[0]) then db
    else ApplyReports(ApplyRemoteStatus(db, reports[0].key, reports[0].status.value), reports[1..])
  }

  function Mentioned(reports: seq<Report>): set<string>
  {
    set i | 0 <= i < |reports| :: reports[i].key.frameSetUid
  }

  datatype Reconciled = Failed(db: Database) | Done(db: Database, reconciled: bool)

  /** A complete answer that does not mention the set in the slot means the processor does
      not know it. An unsupported status ends the connection. */
  ghost function ApplyReconciliation(db: Database, reports: seq<Report>, complete: bool): Reconciled
  {
    var applied := ApplyReports(db, reports);
    if !(forall i | 0 <= i < |reports| :: Supported(reports[i])) then Failed(applied)
    else if complete && applied.client.inFlight.Some? && applied.client.inFlight.value.uid in applied.manifests
         && applied.client.inFlight.value.uid !in Mentioned(reports) then
      Done(NotFound(applied, applied.manifests[applied.client.inFlight.value.uid].Key()), true)
    else Done(applied, complete)
  }

  /** The answer names the set, and under its own key reports no end of it. */
  predicate StillRunning(reports: seq<Report>, key: FrameSetKey)
  {
    && key.frameSetUid in Mentioned(reports)
    && NoEnd(reports, key)
  }

  predicate NoEnd(reports: seq<Report>, key: FrameSetKey)
  {
    forall i | 0 <= i < |reports| && reports[i].key == key && reports[i].status.Some? ::
      !Releases(reports[i].status.value)
  }

  lemma OneReport(db: Database, report: Report)
    requires RowsSound(db) && OneSlot(db) && ClientSound(db) && Supported(report)
    ensures var after := ApplyRemoteStatus(db, report.key, report.status.value);
            && RowsSound(after) && OneSlot(after) && ClientSound(after)
            && after.manifests == db.manifests && after.client.watermark == db.client.watermark
            && (db.client.inFlight.None? ==> after == db)
            && (db.client.inFlight.Some? ==>
                  var key := db.manifests[db.client.inFlight.value.uid].Key();
                  after.client.inFlight
                  == if report.key == key && Releases(report.status.value) then None else db.client.inFlight)
  {
    TransitionRows(db, report.key, report.status.value, Releases(report.status.value));
    TransitionMoves(db, report.key, report.status.value, Releases(report.status.value));
    hide RowsSound, OneSlot, Transition;
    assert db.client.inFlight.Some? ==> db.client.inFlight.value.uid in db.manifests;
    if db.client.inFlight.Some? {
      SlotMatches(db, report.key);
    }
  }

  lemma SlotMatches(db: Database, key: FrameSetKey)
    requires RowsSound(db) && ClientSound(db) && db.client.inFlight.Some?
    ensures db.client.inFlight.value.uid in db.manifests
    ensures MatchesCurrent(db, key) <==> key == db.manifests[db.client.inFlight.value.uid].Key()
  {
  }

  lemma {:induction false} ReportsEmptySlot(db: Database, reports: seq<Report>)
    requires RowsSound(db) && OneSlot(db) && ClientSound(db)
    requires forall i | 0 <= i < |reports| :: Supported(reports[i])
    ensures var after := ApplyReports(db, reports);
            && RowsSound(after) && OneSlot(after) && ClientSound(after)
            && after.manifests == db.manifests
            && (db.client.inFlight.None? ==> after.client.inFlight.None?)
            && (db.client.inFlight.Some? ==>
                  && db.client.inFlight.value.uid in db.manifests
                  && after.client.inFlight
                     == if NoEnd(reports, db.manifests[db.client.inFlight.value.uid].Key())
                         then db.client.inFlight else None)
    decreases |reports|
  {
    if reports != [] {
      var next := ApplyRemoteStatus(db, reports[0].key, reports[0].status.value);
      OneReport(db, reports[0]);
      if db.client.inFlight.Some? {
        NoEndNext(reports, db.manifests[db.client.inFlight.value.uid].Key()) by { SlotMatches(db, reports[0].key); }
        SlotMatches(db, reports[0].key);
      }
      hide RowsSound, OneSlot, ClientSound, NoEnd, ApplyRemoteStatus, Reportable, Releases;
      ReportsEmptySlot(next, reports[1..]);
    }
  }

  lemma NoEndNext(reports: seq<Report>, key: FrameSetKey)
    requires reports != [] && Supported(reports[0])
    ensures NoEnd(reports, key) <==>
            (reports[0].key == key ==> !Releases(reports[0].status.value)) && NoEnd(reports[1..], key)
  {
    hide Releases;
    if NoEnd(reports[1..], key) && (reports[0].key == key ==> !Releases(reports[0].status.value)) {
      forall i | 0 <= i < |reports| && reports[i].key == key && reports[i].status.Some?
        ensures !Releases(reports[i].status.value)
      {
        if i > 0 { assert reports[i] == reports[1..][i - 1]; }
      }
    }
    if NoEnd(reports, key) {
      forall i | 0 <= i < |reports| - 1 && reports[1..][i].key == key && reports[1..][i].status.Some?
        ensures !Releases(reports[1..][i].status.value)
      {
        assert reports[1..][i] == reports[i + 1];
      }
    }
  }

  /** After a complete answer the slot is taken exactly when it was, the answer mentions the
      set and, under the set's own key, reports nothing but that it was accepted or started. */
  lemma {:induction false} CompleteAnswerSettles(db: Database, reports: seq<Report>)
    requires Sound(db) && forall i | 0 <= i < |reports| :: Supported(reports[i])
    ensures var answer := ApplyReconciliation(db, reports, true);
            && answer.Done? && answer.reconciled
            && (answer.db.client.inFlight.Some? <==>
                  && db.client.inFlight.Some? && db.client.inFlight.value.uid in db.manifests
                  && StillRunning(reports, db.manifests[db.client.inFlight.value.uid].Key()))
            && (answer.db.client.inFlight.Some? ==> answer.db.client.inFlight == db.client.inFlight)
  {
    var applied := ApplyReports(db, reports);
    ReportsEmptySlot(db, reports);
    if applied.client.inFlight.Some? {
      var key := applied.manifests[applied.client.inFlight.value.uid].Key();
      assert key.frameSetUid == db.client.inFlight.value.uid;
      SlotMatches(applied, key);
      NotFoundRows(applied, key);
      hide NotFound, ApplyReports, NoEnd, HasNewerEligible;
    }
  }

  /** A set offered again is exactly what the next claim takes, if nothing comes between. */
  lemma {:induction false} RetriedIsNext(db: Database, key: FrameSetKey)
    requires Sound(db) && MatchesCurrent(db, key) && !HasNewerEligible(db, key)
    ensures var after := NotFound(db, key);
            NewestEligible(after) == Some(key.frameSetUid) && Claimable(after, key.frameSetUid)
  {
    var after, uid := NotFound(db, key), key.frameSetUid;
    NotFoundRows(db, key);
    LastReadyIsLast(after);
    assert after.Ready(uid);
    var last := LastReady(after);
    if last != Some(uid) {
      RetryIsLast(db, key, last.value);
      PrecedesTotal(db.manifests[last.value], db.manifests[uid]);
    }
  }

  /** One that is not offered again makes way for something newer that waits. */
  lemma {:induction false} NotRetriedMakesWay(db: Database, key: FrameSetKey)
    requires Sound(db) && MatchesCurrent(db, key) && HasNewerEligible(db, key)
    ensures var after := NotFound(db, key);
            && after.InState(key.frameSetUid, SUPERSEDED_BEFORE_OFFER)
            && NewestEligible(after).Some? && NewestEligible(after).value != key.frameSetUid
            && Precedes(db.manifests[key.frameSetUid], db.manifests[NewestEligible(after).value])
  {
    var after, uid := NotFound(db, key), key.frameSetUid;
    NotFoundRows(db, key);
    var newer := LastReady(db).value;
    LastReadyIsLast(db);
    NewerThanWatermark(db, newer) by { assert Occupies(db.projections[uid].liveState); }
    LastReadyIsLast(after);
    assert after.InState(newer, ELIGIBLE);
    var last := LastReady(after).value;
    if last != newer {
      assert db.InState(last, ELIGIBLE);
      PrecedesTotal(db.manifests[last], db.manifests[newer]);
    }
  }
}

/** Frame sets may be persisted in any order and any number of times: the one with the
    latest time waits, all others are superseded. */
module ManifestArrival {
  import opened Wrappers
  import opened SyncModels
  import opened RelaySpec
  import opened RelayRuns
  import opened RelaySafety

  datatype Arrival = Arrival(submission: Submission, nowMs: int)

  function PersistAll(db: Database, arrivals: seq<Arrival>): Database
    decreases |arrivals|
  {
    if arrivals == [] then db
    else PersistAll(Persist(db, arrivals[0].submission, arrivals[0].nowMs).db, arrivals[1..])
  }

  ghost predicate IsLatest(manifests: map<string, Manifest>, u: string)
  {
    u in manifests && forall v | v in manifests :: manifests[v].synchronizedAtMs <= manifests[u].synchronizedAtMs
  }

  /** Where a set stands beside the one that waits. */
  predicate Placed(db: Database, latest: string, u: string)
  {
    && u in db.manifests && latest in db.manifests
    && db.manifests[u].synchronizedAtMs <= db.manifests[latest].synchronizedAtMs
    && db.InState(u, if u == latest then ELIGIBLE else SUPERSEDED_BEFORE_OFFER)
  }

  /** The set with the latest time waits; everything else has given way. */
  ghost predicate LatestWaits(db: Database, latest: string)
  {
    latest in db.manifests && forall u | u in db.manifests :: Placed(db, latest, u)
  }

  ghost predicate Settled(db: Database)
  {
    RowsSound(db) && (db.manifests != map[] ==> exists u :: LatestWaits(db, u))
  }

  /** A later set waits exactly when the one that waits is later. */
  lemma NewerIsLatest(db: Database, latest: string, synchronizedAtMs: int)
    requires RowsSound(db) && LatestWaits(db, latest)
    ensures NewerWaits(db, synchronizedAtMs) <==> db.manifests[latest].synchronizedAtMs > synchronizedAtMs
  {
    assert Placed(db, latest, latest);
    if NewerWaits(db, synchronizedAtMs) {
      var u :| u in db.manifests && db.InState(u, ELIGIBLE) && db.manifests[u].synchronizedAtMs > synchronizedAtMs;
      assert Placed(db, latest, u);
    }
  }

  lemma FirstSettles(db: Database, s: Submission, nowMs: int)
    requires RowsSound(db) && db.manifests == map[] && Persist(db, s, nowMs).outcome == Inserted
    ensures LatestWaits(Persist(db, s, nowMs).db, s.uid)
  {
    PersistWaiting(db, s, nowMs);
    NothingWaits(db, s.frameSet.synchronizedAtMs);
    hide Persist, NewerWaits;
  }

  lemma LaterSettles(db: Database, s: Submission, nowMs: int, latest: string)
    requires RowsSound(db) && LatestWaits(db, latest) && Persist(db, s, nowMs).outcome == Inserted
    requires db.manifests[latest].synchronizedAtMs > s.frameSet.synchronizedAtMs
    ensures LatestWaits(Persist(db, s, nowMs).db, latest)
  {
    var after := Persist(db, s, nowMs).db;
    PersistWaiting(db, s, nowMs);
    NewerIsLatest(db, latest, s.frameSet.synchronizedAtMs);
    hide Persist, NewerWaits;
    forall u | u in after.manifests ensures Placed(after, latest, u) {
      assert u != s.uid ==> Placed(db, latest, u);
    }
  }

  lemma NewestSettles(db: Database, s: Submission, nowMs: int, latest: string)
    requires RowsSound(db) && LatestWaits(db, latest) && Persist(db, s, nowMs).outcome == Inserted
    requires db.manifests[latest].synchronizedAtMs <= s.frameSet.synchronizedAtMs
    ensures LatestWaits(Persist(db, s, nowMs).db, s.uid)
  {
    var after := Persist(db, s, nowMs).db;
    PersistWaiting(db, s, nowMs);
    NewerIsLatest(db, latest, s.frameSet.synchronizedAtMs);
    hide Persist, NewerWaits;
    forall u | u in after.manifests ensures Placed(after, s.uid, u) {
      assert u != s.uid ==> Placed(db, latest, u);
    }
  }

  lemma PersistSettles(db: Database, s: Submission, nowMs: int)
    requires Settled(db) && TimesDiffer(Persist(db, s, nowMs).db.manifests)
    ensures Settled(Persist(db, s, nowMs).db)
  {
    PersistRowsSound(db, s, nowMs);
    PersistWaiting(db, s, nowMs);
    hide Persist, RowsSound, LatestWaits, NewerWaits, TimesDiffer;
    if Persist(db, s, nowMs).outcome == Inserted {
      if db.manifests == map[] {
        FirstSettles(db, s, nowMs);
      } else {
        var latest :| LatestWaits(db, latest);
        LatestIsThere(db, latest);
        if db.manifests[latest].synchronizedAtMs > s.frameSet.synchronizedAtMs {
          LaterSettles(db, s, nowMs, latest);
        } else {
          NewestSettles(db, s, nowMs, latest);
        }
      }
    }
  }

  lemma LatestIsThere(db: Database, latest: string)
    requires LatestWaits(db, latest)
    ensures latest in db.manifests
  {
  }

  lemma NothingWaits(db: Database, synchronizedAtMs: int)
    requires db.manifests == map[]
    ensures !NewerWaits(db, synchronizedAtMs)
  {
  }

  lemma {:induction false} PersistAllRows(db: Database, arrivals: seq<Arrival>)
    requires RowsSound(db)
    ensures RowsSound(PersistAll(db, arrivals))
    ensures forall u | u in db.manifests ::
      u in PersistAll(db, arrivals).manifests && PersistAll(db, arrivals).manifests[u] == db.manifests[u]
    decreases |arrivals|
  {
    if arrivals != [] {
      PersistRows(db, arrivals[0].submission, arrivals[0].nowMs);
      hide RowsSound, Persist;
      PersistAllRows(Persist(db, arrivals[0].submission, arrivals[0].nowMs).db, arrivals[1..]);
    }
  }

  lemma {:induction false} PersistAllSettles(db: Database, arrivals: seq<Arrival>)
    requires Settled(db) && TimesDiffer(PersistAll(db, arrivals).manifests)
    ensures Settled(PersistAll(db, arrivals))
    decreases |arrivals|
  {
    if arrivals != [] {
      var after := Persist(db, arrivals[0].submission, arrivals[0].nowMs).db;
      PersistRowsSound(db, arrivals[0].submission, arrivals[0].nowMs);
      PersistAllRows(after, arrivals[1..]);
      assert TimesDiffer(after.manifests);
      PersistSettles(db, arrivals[0].submission, arrivals[0].nowMs);
      hide Settled, Persist, TimesDiffer;
      PersistAllSettles(after, arrivals[1..]);
    }
  }

  /** After any arrivals, in any order and with any retries, exactly the set with the latest
      time is eligible, and every other one is superseded. */
  lemma {:induction false} LatestIsEligible(arrivals: seq<Arrival>, u: string)
    requires TimesDiffer(PersistAll(EMPTY_DATABASE, arrivals).manifests)
    requires u in PersistAll(EMPTY_DATABASE, arrivals).manifests
    ensures var db := PersistAll(EMPTY_DATABASE, arrivals);
            && u in db.projections
            && db.projections[u].liveState == if IsLatest(db.manifests, u) then ELIGIBLE else SUPERSEDED_BEFORE_OFFER
  {
    PersistAllSettles(EMPTY_DATABASE, arrivals);
    var db := PersistAll(EMPTY_DATABASE, arrivals);
    hide PersistAll;
    var latest :| LatestWaits(db, latest);
    assert Placed(db, latest, u) && Placed(db, latest, latest);
    if u == latest {
      forall v | v in db.manifests ensures db.manifests[v].synchronizedAtMs <= db.manifests[u].synchronizedAtMs {
        assert Placed(db, latest, v);
      }
    } else {
      assert db.manifests[u].synchronizedAtMs != db.manifests[latest].synchronizedAtMs;
    }
  }

  // ----- any order of arrival -----

  /** A set that nothing but other sets can keep from being persisted. */
  predicate Storable(s: Submission)
  {
    && s.frameSet.identity.mode == V2 && Acceptable(s)
    && Fits(EMPTY_DATABASE, s)
  }

  /** Two submissions are retries of one set, or sets that do not claim the same number,
      content or source frame, and agree on the session of their run. */
  predicate Compatible(s: Submission, t: Submission)
  {
    if s.uid == t.uid then s == t
    else
      && !(s.frameSet.captureRunId == t.frameSet.captureRunId && s.frameSet.frameSetId == t.frameSet.frameSetId)
      && s.frameSet.manifest != t.frameSet.manifest
      && SourceUids(s.frameSet.frames) !! SourceUids(t.frameSet.frames)
      && (s.frameSet.captureRunId == t.frameSet.captureRunId ==>
            s.frameSet.identity.sessionId == t.frameSet.identity.sessionId)
      && s.frameSet.synchronizedAtMs != t.frameSet.synchronizedAtMs
  }

  ghost predicate NoneConflict(submissions: set<Submission>)
  {
    && (forall s | s in submissions :: Storable(s))
    && (forall s, t | s in submissions && t in submissions :: Compatible(s, t))
  }

  function Submitted(arrivals: seq<Arrival>): set<Submission>
  {
    set i | 0 <= i < |arrivals| :: arrivals[i].submission
  }

  /** The row of the set. */
  predicate RowFor(row: Manifest, s: Submission)
  {
    && row.uid == s.uid && row.captureRunId == s.frameSet.captureRunId && row.frameSetId == s.frameSet.frameSetId
    && row.payload == s.frameSet.manifest && row.authorization == s.frameSet.identity.authorization
    && row.synchronizedAtMs == s.frameSet.synchronizedAtMs
  }

  /** The rows are those of the sets, and the tables of source frames and runs know no others. */
  ghost predicate Stores(db: Database, sets: set<Submission>)
  {
    && (forall s | s in sets :: s.uid in db.manifests && RowFor(db.manifests[s.uid], s))
    && (forall u | u in db.manifests :: exists s :: s in sets && s.uid == u)
    && (forall k | k in db.memberSets :: exists s :: s in sets && k in SourceUids(s.frameSet.frames))
    && (forall r | r in db.runs ::
          exists s :: s in sets && s.frameSet.captureRunId == r
                      && s.frameSet.identity.sessionId == Some(db.runs[r].sessionId))
  }

  /** What is stored already is known. */
  lemma RetryIsKnown(db: Database, sets: set<Submission>, s: Submission, nowMs: int)
    requires RowsSound(db) && Stores(db, sets) && Storable(s) && s in sets
    ensures Persist(db, s, nowMs) == PersistResult(db, Known)
  {
    assert RowFor(db.manifests[s.uid], s);
    hide Stores, Acceptable, Fits, RunReused;
  }

  lemma RowTaken(db: Database, sets: set<Submission>, s: Submission, u: string)
    requires Stores(db, sets) && (forall t | t in sets :: Compatible(s, t) && t.uid != s.uid) && u in db.manifests
    ensures u != s.uid && db.manifests[u].payload != s.frameSet.manifest
    ensures !(&& db.manifests[u].captureRunId == s.frameSet.captureRunId
              && db.manifests[u].frameSetId == s.frameSet.frameSetId)
  {
    hide Storable, Acceptable;
    var t :| t in sets && t.uid == u;
    assert RowFor(db.manifests[t.uid], t) && Compatible(s, t);
  }

  lemma SourceFree(db: Database, sets: set<Submission>, s: Submission, d: string)
    requires Stores(db, sets) && (forall t | t in sets :: Compatible(s, t) && t.uid != s.uid)
    requires d in s.frameSet.frames && s.frameSet.frames[d].sourceFrameUid.Some?
    ensures OrEmpty(s.frameSet.frames[d].sourceFrameUid) !in db.memberSets
  {
    hide RowFor;
    var k := s.frameSet.frames[d].sourceFrameUid.value;
    assert k in SourceUids(s.frameSet.frames);
    forall t | t in sets ensures k !in SourceUids(t.frameSet.frames) {
      assert Compatible(s, t);
    }
  }

  lemma RunFree(db: Database, sets: set<Submission>, s: Submission)
    requires Stores(db, sets) && (forall t | t in sets :: Compatible(s, t) && t.uid != s.uid)
    ensures !RunReused(db, s)
  {
    hide RowFor, SourceUids;
    var run := s.frameSet.captureRunId;
    if run in db.runs {
      var t :| t in sets && t.frameSet.captureRunId == run
               && t.frameSet.identity.sessionId == Some(db.runs[run].sessionId);
      assert Compatible(s, t);
    }
  }

  lemma MembersNamed(s: Submission, d: string)
    requires Acceptable(s) && d in s.frameSet.frames
    ensures s.frameSet.frames[d].sourceFrameUid.Some?
  {
    assert MemberComplete(s.frameSet.frames[d]);
  }

  lemma FreshFits(db: Database, sets: set<Submission>, s: Submission)
    requires Stores(db, sets) && Storable(s) && forall t | t in sets :: Compatible(s, t) && t.uid != s.uid
    ensures s.uid !in db.manifests && !RunReused(db, s) && Fits(db, s)
  {
    hide Stores, Compatible, Acceptable, RunReused, RowFor;
    RunFree(db, sets, s);
    forall u | u in db.manifests
      ensures && u != s.uid && db.manifests[u].payload != s.frameSet.manifest
              && !(&& db.manifests[u].captureRunId == s.frameSet.captureRunId
                   && db.manifests[u].frameSetId == s.frameSet.frameSetId)
    {
      RowTaken(db, sets, s, u);
    }
    forall d | d in s.frameSet.frames
      ensures OrEmpty(s.frameSet.frames[d].sourceFrameUid) !in db.memberSets
    {
      MembersNamed(s, d);
      SourceFree(db, sets, s, d);
    }
  }

  lemma FreshIsInserted(db: Database, sets: set<Submission>, s: Submission, nowMs: int)
    requires Stores(db, sets) && Storable(s) && forall t | t in sets :: Compatible(s, t) && t.uid != s.uid
    ensures s.frameSet.identity.sessionId.Some? && Persist(db, s, nowMs).db == Insert(db, s, nowMs)
  {
    FreshFits(db, sets, s);
    hide Stores, Fits, RunReused, Compatible, Insert;
  }

  lemma InsertedRow(db: Database, sets: set<Submission>, s: Submission, nowMs: int)
    requires Stores(db, sets) && s.frameSet.identity.sessionId.Some? && forall t | t in sets :: t.uid != s.uid
    ensures var after := Insert(db, s, nowMs);
            && (forall t | t in sets + {s} :: t.uid in after.manifests && RowFor(after.manifests[t.uid], t))
            && (forall u | u in after.manifests :: exists t :: t in sets + {s} && t.uid == u)
  {
    var after, more := Insert(db, s, nowMs), sets + {s};
    assert after.manifests == db.manifests[s.uid := ManifestRow(s, nowMs)];
    assert RowFor(ManifestRow(s, nowMs), s);
    hide Insert, RowFor, ManifestRow, SourceUids;
    assert s in more;
    forall u | u in after.manifests ensures exists t :: t in more && t.uid == u {
      if u != s.uid {
        var t :| t in sets && t.uid == u;
        assert t in more;
      }
    }
  }

  lemma InsertedSources(db: Database, sets: set<Submission>, s: Submission, nowMs: int, k: string)
    requires Stores(db, sets) && s.frameSet.identity.sessionId.Some? && k in Insert(db, s, nowMs).memberSets
    ensures exists t :: t in sets + {s} && k in SourceUids(t.frameSet.frames)
  {
    assert Insert(db, s, nowMs).memberSets == db.memberSets + MemberRows(s.frameSet.frames, s.uid);
    hide Insert, RowFor, SourceUids;
    assert s in sets + {s};
    if k in db.memberSets {
      var t :| t in sets && k in SourceUids(t.frameSet.frames);
      assert t in sets + {s};
    }
  }

  lemma InsertedRuns(db: Database, sets: set<Submission>, s: Submission, nowMs: int, r: string)
    requires Stores(db, sets) && s.frameSet.identity.sessionId.Some? && r in Insert(db, s, nowMs).runs
    ensures exists t :: t in sets + {s} && t.frameSet.captureRunId == r
                        && t.frameSet.identity.sessionId == Some(Insert(db, s, nowMs).runs[r].sessionId)
  {
    var runs := Insert(db, s, nowMs).runs;
    assert runs == RunsAfter(db.runs, s.frameSet.captureRunId, s.frameSet.identity.sessionId.value);
    hide Insert, RowFor, SourceUids;
    assert s in sets + {s};
    if r in db.runs {
      var t :| t in sets && t.frameSet.captureRunId == r
               && t.frameSet.identity.sessionId == Some(db.runs[r].sessionId);
      assert t in sets + {s};
    }
  }

  lemma InsertedStores(db: Database, sets: set<Submission>, s: Submission, nowMs: int)
    requires Stores(db, sets) && s.frameSet.identity.sessionId.Some? && forall t | t in sets :: t.uid != s.uid
    ensures Stores(Insert(db, s, nowMs), sets + {s})
  {
    var after, more := Insert(db, s, nowMs), sets + {s};
    InsertedRow(db, sets, s, nowMs);
    hide Insert, RowFor, SourceUids;
    forall k | k in after.memberSets ensures exists t :: t in more && k in SourceUids(t.frameSet.frames) {
      InsertedSources(db, sets, s, nowMs, k);
    }
    forall r | r in after.runs
      ensures exists t :: t in more && t.frameSet.captureRunId == r
                          && t.frameSet.identity.sessionId == Some(after.runs[r].sessionId)
    {
      InsertedRuns(db, sets, s, nowMs, r);
    }
  }

  lemma OthersCompatible(sets: set<Submission>, s: Submission)
    requires NoneConflict(sets + {s})
    ensures Storable(s) && forall t | t in sets :: Compatible(s, t) && (t.uid == s.uid ==> t == s)
  {
    hide Storable;
    forall t | t in sets ensures Compatible(s, t) && (t.uid == s.uid ==> t == s) {
      assert s in sets + {s} && t in sets + {s};
    }
  }

  lemma PersistStores(db: Database, sets: set<Submission>, s: Submission, nowMs: int)
    requires RowsSound(db) && Stores(db, sets) && NoneConflict(sets + {s})
    ensures Stores(Persist(db, s, nowMs).db, sets + {s})
  {
    OthersCompatible(sets, s);
    hide *;
    if s in sets {
      RetryIsKnown(db, sets, s, nowMs);
      assert sets + {s} == sets;
    } else {
      FreshIsInserted(db, sets, s, nowMs);
      InsertedStores(db, sets, s, nowMs);
    }
  }

  lemma FewerConflictLess(some: set<Submission>, all: set<Submission>)
    requires NoneConflict(all) && some <= all
    ensures NoneConflict(some)
  {
  }

  lemma {:induction false} PersistAllStores(db: Database, sets: set<Submission>, arrivals: seq<Arrival>)
    requires RowsSound(db) && Stores(db, sets) && NoneConflict(sets + Submitted(arrivals))
    ensures Stores(PersistAll(db, arrivals), sets + Submitted(arrivals))
    decreases |arrivals|
  {
    if arrivals == [] {
      assert sets + Submitted(arrivals) == sets;
    } else {
      var s, nowMs := arrivals[0].submission, arrivals[0].nowMs;
      assert Submitted(arrivals) == {s} + Submitted(arrivals[1..]) by { SubmittedFirst(arrivals); }
      assert sets + Submitted(arrivals) == sets + {s} + Submitted(arrivals[1..]);
      hide Stores, Persist, NoneConflict, Submitted, RowsSound;
      FewerConflictLess(sets + {s}, sets + Submitted(arrivals));
      PersistStores(db, sets, s, nowMs);
      PersistRowsSound(db, s, nowMs);
      PersistAllStores(Persist(db, s, nowMs).db, sets + {s}, arrivals[1..]);
    }
  }

  lemma SubmittedFirst(arrivals: seq<Arrival>)
    requires arrivals != []
    ensures Submitted(arrivals) == {arrivals[0].submission} + Submitted(arrivals[1..])
  {
    forall s | s in Submitted(arrivals) ensures s in {arrivals[0].submission} + Submitted(arrivals[1..]) {
      var i :| 0 <= i < |arrivals| && arrivals[i].submission == s;
      assert i > 0 ==> arrivals[1..][i - 1].submission == s;
    }
    forall s | s in Submitted(arrivals[1..]) ensures s in Submitted(arrivals) {
      var i :| 0 <= i < |arrivals[1..]| && arrivals[1..][i].submission == s;
      assert arrivals[i + 1].submission == s;
    }
  }

  /** A set of this uid was submitted, and no set has a later time. */
  ghost predicate LatestOf(sets: set<Submission>, u: string)
  {
    exists s ::
      && s in sets && s.uid == u
      && forall t | t in sets :: t.frameSet.synchronizedAtMs <= s.frameSet.synchronizedAtMs
  }

  ghost predicate Names(sets: set<Submission>, u: string)
  {
    exists s :: s in sets && s.uid == u
  }

  lemma RowTime(db: Database, sets: set<Submission>, s: Submission)
    requires Stores(db, sets) && s in sets
    ensures s.uid in db.manifests && db.manifests[s.uid].synchronizedAtMs == s.frameSet.synchronizedAtMs
  {
    assert RowFor(db.manifests[s.uid], s);
  }

  lemma RowOwner(db: Database, sets: set<Submission>, u: string) returns (s: Submission)
    requires Stores(db, sets) && u in db.manifests
    ensures s in sets && s.uid == u && db.manifests[u].synchronizedAtMs == s.frameSet.synchronizedAtMs
  {
    s :| s in sets && s.uid == u;
    hide Stores;
    RowTime(db, sets, s);
  }

  lemma OwnTime(sets: set<Submission>, s: Submission, t: Submission)
    requires NoneConflict(sets) && s in sets && t in sets
    ensures if s.uid == t.uid then s == t else s.frameSet.synchronizedAtMs != t.frameSet.synchronizedAtMs
  {
    hide Storable;
    assert Compatible(s, t);
  }

  lemma StoredTimesDiffer(db: Database, sets: set<Submission>)
    requires Stores(db, sets) && NoneConflict(sets)
    ensures TimesDiffer(db.manifests)
  {
    hide Stores, NoneConflict;
    forall u, v | u in db.manifests && v in db.manifests && u != v
      ensures db.manifests[u].synchronizedAtMs != db.manifests[v].synchronizedAtMs
    {
      var s := RowOwner(db, sets, u);
      var t := RowOwner(db, sets, v);
      OwnTime(sets, s, t);
    }
  }

  /** The sets stored decide which of them is the latest. */
  lemma StoredLatest(db: Database, sets: set<Submission>, u: string)
    requires Stores(db, sets) && NoneConflict(sets)
    ensures u in db.manifests <==> Names(sets, u)
    ensures u in db.manifests ==> (IsLatest(db.manifests, u) <==> LatestOf(sets, u))
  {
    hide Stores, NoneConflict;
    if Names(sets, u) {
      var s :| s in sets && s.uid == u;
      RowTime(db, sets, s);
    }
    if u in db.manifests {
      var s := RowOwner(db, sets, u);
      if IsLatest(db.manifests, u) {
        forall t | t in sets ensures t.frameSet.synchronizedAtMs <= s.frameSet.synchronizedAtMs {
          RowTime(db, sets, t);
        }
      }
      if LatestOf(sets, u) {
        var s' :| s' in sets && s'.uid == u
                  && forall t | t in sets :: t.frameSet.synchronizedAtMs <= s'.frameSet.synchronizedAtMs;
        OwnTime(sets, s, s');
        forall v | v in db.manifests ensures db.manifests[v].synchronizedAtMs <= db.manifests[u].synchronizedAtMs {
          var t := RowOwner(db, sets, v);
        }
      }
    }
  }

  /** What the sets alone say of a row, however they arrived. */
  lemma RowDecided(arrivals: seq<Arrival>, sets: set<Submission>, u: string)
    requires Submitted(arrivals) == sets && NoneConflict(sets)
    ensures var db := PersistAll(EMPTY_DATABASE, arrivals);
            && (u in db.projections <==> Names(sets, u))
            && (Names(sets, u) ==>
                  db.projections[u]
                  == Projection(ARCHIVE_DURABLE, if LatestOf(sets, u) then ELIGIBLE else SUPERSEDED_BEFORE_OFFER))
  {
    assert Stores(EMPTY_DATABASE, {}) && RowsSound(EMPTY_DATABASE) && {} + sets == sets;
    hide *;
    PersistAllStores(EMPTY_DATABASE, {}, arrivals);
    var db := PersistAll(EMPTY_DATABASE, arrivals);
    StoredTimesDiffer(db, sets);
    StoredLatest(db, sets, u);
    AllDurable(arrivals);
    if u in db.manifests { LatestIsEligible(arrivals, u); }
  }

  /** Sets that do not conflict may arrive in any order and any number of times: the same rows
      come to stand in the same states. */
  lemma {:induction false} ArrivalOrderIrrelevant(a: seq<Arrival>, b: seq<Arrival>)
    requires Submitted(a) == Submitted(b) && NoneConflict(Submitted(a))
    ensures PersistAll(EMPTY_DATABASE, a).projections == PersistAll(EMPTY_DATABASE, b).projections
    ensures forall u :: u in PersistAll(EMPTY_DATABASE, a).projections <==> Names(Submitted(a), u)
  {
    hide *;
    var x, y := PersistAll(EMPTY_DATABASE, a).projections, PersistAll(EMPTY_DATABASE, b).projections;
    forall u ensures (u in x <==> Names(Submitted(a), u)) && (u in y <==> Names(Submitted(a), u)) {
      RowDecided(a, Submitted(a), u);
      RowDecided(b, Submitted(a), u);
    }
    forall u | u in x ensures x[u] == y[u] {
      RowDecided(a, Submitted(a), u);
      RowDecided(b, Submitted(a), u);
    }
  }

  lemma AllDurable(arrivals: seq<Arrival>)
    ensures var db := PersistAll(EMPTY_DATABASE, arrivals);
            && db.projections.Keys == db.manifests.Keys
            && forall u | u in db.projections :: db.projections[u].archiveState == ARCHIVE_DURABLE
  {
    PersistAllRows(EMPTY_DATABASE, arrivals);
  }

  // ----- sessions and runs -----

  ghost predicate OneOpen(db: Database)
  {
    && (forall a, b | a in db.sessions && b in db.sessions && db.sessions[a] == OPEN && db.sessions[b] == OPEN ::
          a == b)
    && (forall a, b | a in db.runs && b in db.runs && db.runs[a].state == OPEN && db.runs[b].state == OPEN :: a == b)
  }

  lemma OnlySessionOpen(sessions: map<CaptureSessionId, RowState>, id: CaptureSessionId, a: CaptureSessionId)
    requires a in SessionsAfter(sessions, id) && SessionsAfter(sessions, id)[a] == OPEN
    ensures a == id
  {
  }

  lemma OnlyRunOpen(runs: map<string, RunRow>, id: string, sessionId: CaptureSessionId, r: string)
    requires r in RunsAfter(runs, id, sessionId) && RunsAfter(runs, id, sessionId)[r].state == OPEN
    ensures r == id
  {
  }

  lemma InsertedRows(db: Database, s: Submission, nowMs: int)
    requires Persist(db, s, nowMs).outcome == Inserted
    ensures var after := Persist(db, s, nowMs).db;
            && s.frameSet.identity.sessionId.Some?
            && after.sessions == SessionsAfter(db.sessions, s.frameSet.identity.sessionId.value)
            && after.runs == RunsAfter(db.runs, s.frameSet.captureRunId, s.frameSet.identity.sessionId.value)
  {
    hide Fits, NewerWaits, AllSuperseded, SameContent, SessionsAfter, RunsAfter, MemberComplete, ScopeAgrees;
  }

  /** A new frame set leaves at most one session and one run open: its own. */
  lemma {:induction false} InsertedOwnsOpenRows(db: Database, s: Submission, nowMs: int)
    requires Persist(db, s, nowMs).outcome == Inserted
    ensures var after := Persist(db, s, nowMs).db;
            && OneOpen(after)
            && (forall a | a in after.sessions && after.sessions[a] == OPEN :: Some(a) == s.frameSet.identity.sessionId)
            && (forall r | r in after.runs && after.runs[r].state == OPEN :: r == s.frameSet.captureRunId)
  {
    var after := Persist(db, s, nowMs).db;
    InsertedRows(db, s, nowMs);
    var id := s.frameSet.identity.sessionId.value;
    hide Persist, SessionsAfter, RunsAfter;
    forall a | a in after.sessions && after.sessions[a] == OPEN ensures a == id {
      OnlySessionOpen(db.sessions, id, a);
    }
    forall r | r in after.runs && after.runs[r].state == OPEN ensures r == s.frameSet.captureRunId {
      OnlyRunOpen(db.runs, s.frameSet.captureRunId, id, r);
    }
  }

  lemma PersistKeepsOneOpen(db: Database, s: Submission, nowMs: int)
    requires OneOpen(db)
    ensures OneOpen(Persist(db, s, nowMs).db)
  {
    if Persist(db, s, nowMs).outcome == Inserted {
      InsertedOwnsOpenRows(db, s, nowMs);
    } else {
      hide Fits, Acceptable, Insert, SameContent;
    }
  }

  /** In every run at most one capture session and one capture run are open. */
  lemma {:induction false} AlwaysOneOpen(relay: Relay, steps: seq<Step>)
    requires forall i | 0 <= i < |steps| :: WellFormed(steps[i])
    requires OneOpen(relay.db)
    ensures OneOpen(RunSteps(relay, steps).db)
    decreases |steps|
  {
    if steps != [] {
      StepKeepsOneOpen(relay, steps[0]);
      hide OneOpen, Next;
      AlwaysOneOpen(Next(relay, steps[0]), steps[1..]);
    }
  }

  lemma StepKeepsOneOpen(relay: Relay, step: Step)
    requires WellFormed(step) && OneOpen(relay.db)
    ensures OneOpen(Next(relay, step).db)
  {
    hide NewestEligible, HasNewerEligible, Persist;
    if step.PersistSet? {
      PersistKeepsOneOpen(relay.db, step.submission, step.nowMs);
    }
  }
}

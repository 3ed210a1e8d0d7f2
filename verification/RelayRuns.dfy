/** Runs of the relay scheduler. A claim is two steps, so that claimers interleave with each
    other and with everything else; every other transaction is one step. */
module RelayRuns {
  import opened Wrappers
  import opened SyncModels
  import opened RelaySpec

  datatype Step =
    | PersistSet(submission: Submission, nowMs: int)
    | ReadCandidate(claimer: nat)
    | CommitClaim(claimer: nat, credit: CreditIdentity, atMs: int)
    | Interrupted(key: FrameSetKey)
    | Reported(key: FrameSetKey, status: LiveState)
    | Released(key: FrameSetKey, cause: LiveState)
    | Retired(key: FrameSetKey, reason: LiveState)
    | Missing(key: FrameSetKey)

  /** An offer, and whether the set was then marked to be offered again. */
  datatype Offer = Offer(uid: string, again: bool)

  /** The tables, the candidates claimers have read and not yet claimed, and the offers so far. */
  datatype Relay = Relay(db: Database, held: map<nat, string>, offers: seq<Offer>)

  predicate WellFormed(step: Step)
  {
    match step
    case Reported(_, status) => Reportable(status)
    case Released(_, cause) => cause == EXPIRED_BEFORE_OFFER || cause == REJECTED
    case Retired(_, reason) => reason == SESSION_INACTIVE || reason == REJECTED
    case _ => true
  }

  ghost function Next(relay: Relay, step: Step): Relay
    requires WellFormed(step)
  {
    match step
    case PersistSet(submission, nowMs) => relay.(db := Persist(relay.db, submission, nowMs).db)
    case ReadCandidate(claimer) =>
      var candidate := NewestEligible(relay.db);
      if relay.db.client.inFlight.Some? || candidate.None? then relay
      else relay.(held := relay.held[claimer := candidate.value])
    case CommitClaim(claimer, credit, atMs) =>
      if claimer !in relay.held then relay
      else
        var uid := relay.held[claimer];
        var done := relay.(held := relay.held - {claimer});
        if Claimable(relay.db, uid) then
          done.(db := Claim(relay.db, uid, credit, atMs),
                offers := relay.offers + [Offer(uid, relay.db.client.reoffer == Some(uid))])
        else done
    case Interrupted(key) => relay.(db := MarkUnresolved(relay.db, key))
    case Reported(key, status) => relay.(db := ApplyRemoteStatus(relay.db, key, status))
    case Released(key, cause) => relay.(db := ReleaseBeforeSend(relay.db, key, cause))
    case Retired(key, reason) => relay.(db := RetireEligible(relay.db, key, reason))
    case Missing(key) => relay.(db := NotFound(relay.db, key))
  }

  ghost function RunSteps(relay: Relay, steps: seq<Step>): Relay
    requires forall i | 0 <= i < |steps| :: WellFormed(steps[i])
    decreases |steps|
  {
    if steps == [] then relay else RunSteps(Next(relay, steps[0]), steps[1..])
  }

  const START := Relay(EMPTY_DATABASE, map[], [])

  // ----- numbers and times agree -----

  /** Of two sets of one capture run the one with the higher number has the later time. */
  predicate Agree(a: Manifest, b: Manifest)
  {
    a.captureRunId == b.captureRunId && a.uid != b.uid ==>
      a.frameSetId != b.frameSetId && (a.frameSetId < b.frameSetId <==> a.synchronizedAtMs < b.synchronizedAtMs)
  }

  ghost predicate Coherent(manifests: map<string, Manifest>)
  {
    forall u, v | u in manifests && v in manifests :: Agree(manifests[u], manifests[v])
  }

  /** No two sets have the same time. */
  ghost predicate TimesDiffer(manifests: map<string, Manifest>)
  {
    forall u, v | u in manifests && v in manifests && u != v ::
      manifests[u].synchronizedAtMs != manifests[v].synchronizedAtMs
  }

  /** Then "newer" is one order, whichever runs the sets belong to. */
  lemma NewerIsLater(a: Manifest, b: Manifest)
    requires Agree(a, b) && Agree(b, a) && a.uid != b.uid
    ensures Newer(a, b) <==> Precedes(b, a)
  {
    PrecedesTotal(a, b);
  }

  // ----- the invariant -----

  ghost predicate RowsSound(db: Database)
  {
    && db.projections.Keys == db.manifests.Keys
    && (forall u | u in db.manifests :: db.manifests[u].uid == u && db.projections[u].archiveState == ARCHIVE_DURABLE)
  }

  /** Exactly the in-flight set is in a state that occupies the slot. */
  ghost predicate OneSlot(db: Database)
  {
    forall u | u in db.projections ::
      Occupies(db.projections[u].liveState) <==> db.client.inFlight.Some? && db.client.inFlight.value.uid == u
  }

  /** In flight is always the watermark; only the watermark is offered again. */
  ghost predicate ClientSound(db: Database)
  {
    var c := db.client;
    && (c.watermark.Some? ==>
          && c.watermark.value.frameSetUid in db.manifests
          && db.manifests[c.watermark.value.frameSetUid].Key() == c.watermark.value)
    && (c.inFlight.Some? ==>
          c.watermark.Some? && c.inFlight.value.uid == c.watermark.value.frameSetUid && c.reoffer.None?)
    && (c.reoffer.Some? ==> c.watermark.Some? && c.reoffer.value == c.watermark.value.frameSetUid)
    && (c.watermark.Some? && db.InState(c.watermark.value.frameSetUid, ELIGIBLE) ==>
          c.reoffer == Some(c.watermark.value.frameSetUid))
  }

  /** Eligible and not before the watermark. */
  ghost predicate InFront(db: Database, u: string)
  {
    && u in db.manifests && db.InState(u, ELIGIBLE)
    && (db.client.watermark.Some? && db.client.watermark.value.frameSetUid in db.manifests ==>
          !Precedes(db.manifests[u], db.manifests[db.client.watermark.value.frameSetUid]))
  }

  /** At most one set is in front. */
  ghost predicate OneInFront(db: Database)
  {
    forall u, v | InFront(db, u) && InFront(db, v) :: u == v
  }

  ghost predicate Sound(db: Database)
  {
    RowsSound(db) && OneSlot(db) && ClientSound(db) && OneInFront(db) && Coherent(db.manifests)
  }

  /** A candidate that is still eligible is still in front. */
  ghost predicate HeldSound(db: Database, held: map<nat, string>)
  {
    forall c | c in held :: held[c] in db.manifests && (db.InState(held[c], ELIGIBLE) ==> InFront(db, held[c]))
  }

  // ----- looking up -----

  lemma LastReadyIsLast(db: Database)
    requires RowsSound(db)
    ensures var last := LastReady(db);
            && (last.None? ==> forall u | u in db.manifests :: !db.InState(u, ELIGIBLE))
            && (last.Some? ==>
                  && last.value in db.manifests && db.InState(last.value, ELIGIBLE)
                  && forall u | u in db.manifests && u != last.value && db.InState(u, ELIGIBLE) ::
                       Precedes(db.manifests[u], db.manifests[last.value]))
  {
    LastReadySays(db, db.manifests.Keys);
    forall u | u in db.manifests && db.InState(u, ELIGIBLE) ensures db.Ready(u) {
    }
  }

  lemma NewerThanWatermark(db: Database, u: string)
    requires Sound(db) && u in db.manifests && db.client.watermark.Some? && u != db.client.watermark.value.frameSetUid
    ensures Newer(db.manifests[u], db.manifests[db.client.watermark.value.frameSetUid])
            <==> Precedes(db.manifests[db.client.watermark.value.frameSetUid], db.manifests[u])
  {
    var w := db.client.watermark.value.frameSetUid;
    assert Agree(db.manifests[u], db.manifests[w]) && Agree(db.manifests[w], db.manifests[u]);
    NewerIsLater(db.manifests[u], db.manifests[w]);
  }

  /** The candidate, if there is one, is the set in front. */
  lemma {:induction false} CandidateIsInFront(db: Database)
    requires Sound(db)
    ensures NewestEligible(db).Some? ==> InFront(db, NewestEligible(db).value)
    ensures NewestEligible(db).None? ==> forall u | u in db.manifests :: !InFront(db, u)
  {
    LastReadyIsLast(db);
    var last := LastReady(db);
    if last.Some? && db.client.watermark.Some? {
      var w := db.client.watermark.value.frameSetUid;
      if last.value != w {
        NewerThanWatermark(db, last.value);
        PrecedesTotal(db.manifests[last.value], db.manifests[w]);
      } else {
        PrecedesTotal(db.manifests[w], db.manifests[w]);
      }
      if NewestEligible(db).None? {
        forall u | u in db.manifests ensures !InFront(db, u) {
          if InFront(db, u) && u != last.value {
            if u != w { PrecedesTransitive(db.manifests[u], db.manifests[last.value], db.manifests[w]); }
          }
        }
      }
    }
  }

  // ----- a full scan -----

  /** A set that may be offered: ready, and newer than the watermark or to be offered again. */
  ghost predicate Offerable(db: Database, u: string)
  {
    && db.Ready(u)
    && (db.client.watermark.Some? ==>
          || db.client.reoffer == Some(u)
          || (&& db.client.watermark.value.frameSetUid in db.manifests
              && Newer(db.manifests[u], db.manifests[db.client.watermark.value.frameSetUid])))
  }

  ghost predicate IsGreatestOfferable(db: Database, u: string)
  {
    Offerable(db, u) && forall v | v != u && Offerable(db, v) :: Precedes(db.manifests[v], db.manifests[u])
  }

  ghost predicate RowsKeyed(db: Database)
  {
    forall u | u in db.manifests :: db.manifests[u].uid == u
  }

  /** Among tables of any rows, also such as are not archive-durable: looking only at the newest
      ready row finds what a scan of all rows would find. */
  lemma {:induction false} NewestRowEqualsFullScan(db: Database)
    requires RowsKeyed(db) && Coherent(db.manifests)
    requires db.client.watermark.Some? && db.client.reoffer.Some? ==>
               db.client.reoffer.value == db.client.watermark.value.frameSetUid
    ensures match NewestEligible(db)
            case Some(u) => IsGreatestOfferable(db, u)
            case None => forall u :: !Offerable(db, u)
  {
    LastReadySays(db, db.manifests.Keys);
    var last := LastReady(db);
    assert forall u | db.Ready(u) :: u in db.manifests.Keys;
    if last.Some? && db.client.watermark.Some? {
      var w := db.client.watermark.value.frameSetUid;
      forall u | Offerable(db, u) && u != w ensures w in db.manifests && Precedes(db.manifests[w], db.manifests[u]) {
        assert Agree(db.manifests[u], db.manifests[w]) && Agree(db.manifests[w], db.manifests[u]);
        NewerIsLater(db.manifests[u], db.manifests[w]);
      }
      if last.value != w && w in db.manifests {
        assert Agree(db.manifests[last.value], db.manifests[w]) && Agree(db.manifests[w], db.manifests[last.value]);
        NewerIsLater(db.manifests[last.value], db.manifests[w]);
      }
      if NewestEligible(db).None? {
        forall u ensures !Offerable(db, u) {
          if Offerable(db, u) && u != last.value {
            assert Precedes(db.manifests[u], db.manifests[last.value]);
            PrecedesTotal(db.manifests[last.value], db.manifests[last.value]);
            assert w in db.manifests;
            if u != w { PrecedesTransitive(db.manifests[w], db.manifests[u], db.manifests[last.value]); }
          }
        }
      }
    }
  }

  // ----- why numbers and times must agree -----

  function SampleRow(uid: string, frameSetId: int, synchronizedAtMs: int): Manifest
  {
    Manifest(uid, Declared("session"), "run", frameSetId, synchronizedAtMs, 0, None,
             ManifestPayload(V2, Some(Declared("session")), None, 0, 0, 0, 0, map[]))
  }

  /** Three sets of one run whose numbers and times disagree: the watermark has number 2, a
      set that waits has number 3, and the last in time has number 1. */
  function CrossedTables(): Database
  {
    Database(
      map["w" := SampleRow("w", 2, 10), "x" := SampleRow("x", 3, 20), "y" := SampleRow("y", 1, 30)],
      map["w" := Projection(ARCHIVE_DURABLE, COMPLETED),
          "x" := Projection(ARCHIVE_DURABLE, ELIGIBLE),
          "y" := Projection(ARCHIVE_DURABLE, ELIGIBLE)],
      map[], map[], map[],
      ClientState(None, Some(FrameSetKey("run", 2, "w")), None, None))
  }

  /** There the newest row alone misleads: nothing is offered although a scan would offer a set. */
  lemma {:induction false} CrossedNumbersMislead()
    ensures var db := CrossedTables();
            && RowsSound(db) && OneSlot(db) && ClientSound(db) && !Coherent(db.manifests)
            && NewestEligible(db).None? && Offerable(db, "x")
  {
    var db := CrossedTables();
    assert RowsSound(db);
    LastReadyIsLast(db);
    assert Precedes(db.manifests["x"], db.manifests["y"]);
    PrecedesTotal(db.manifests["x"], db.manifests["y"]);
    assert LastReady(db) == Some("y") by {
      assert db.InState("x", ELIGIBLE) && db.InState("y", ELIGIBLE);
      assert LastReady(db).value in {"w", "x", "y"};
    }
    assert !Agree(db.manifests["x"], db.manifests["y"]);
  }
}

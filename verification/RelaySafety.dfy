/** What every step of the relay scheduler keeps, and what follows for whole runs: offers
    never go backwards, one set at a time is out, and endings are final. */
module RelaySafety {
  import opened Wrappers
  import opened SyncModels
  import opened RelaySpec
  import opened RelayRuns

  ghost predicate Safe(relay: Relay)
  {
    Sound(relay.db) && HeldSound(relay.db, relay.held)
  }

  // ----- persisting -----

  /** A new row is either the only one waiting or not waiting at all; nothing else adds rows. */
  lemma PersistWaiting(db: Database, s: Submission, nowMs: int)
    requires RowsSound(db)
    ensures var result := Persist(db, s, nowMs);
            && result.db.client == db.client
            && (result.outcome != Inserted ==> result.db == db)
            && (result.outcome == Inserted ==>
                  && s.uid !in db.manifests
                  && s.frameSet.identity.sessionId.Some?
                  && result.db.manifests == db.manifests[s.uid := ManifestRow(s, nowMs)]
                  && result.db.projections
                     == if NewerWaits(db, s.frameSet.synchronizedAtMs)
                        then db.projections[s.uid := Projection(ARCHIVE_DURABLE, SUPERSEDED_BEFORE_OFFER)]
                        else AllSuperseded(db.projections)[s.uid := Projection(ARCHIVE_DURABLE, ELIGIBLE)])
  {
    hide Fits, NewerWaits, AllSuperseded, SameContent, RunReused;
  }

  lemma PersistRowsSound(db: Database, s: Submission, nowMs: int)
    requires RowsSound(db)
    ensures RowsSound(Persist(db, s, nowMs).db)
  {
    PersistWaiting(db, s, nowMs);
    hide Persist, NewerWaits;
  }

  lemma PersistKeeps(db: Database, s: Submission, nowMs: int, u: string)
    requires RowsSound(db) && u in db.manifests
    ensures var after := Persist(db, s, nowMs).db;
            && u in after.manifests && u in after.projections && after.manifests[u] == db.manifests[u]
            && (after.InState(u, ELIGIBLE) ==> db.InState(u, ELIGIBLE))
            && Occupies(after.projections[u].liveState) == Occupies(db.projections[u].liveState)
  {
    PersistWaiting(db, s, nowMs);
    hide Persist, NewerWaits;
  }

  lemma PersistRows(db: Database, s: Submission, nowMs: int)
    requires RowsSound(db)
    ensures var after := Persist(db, s, nowMs).db;
            && RowsSound(after)
            && after.client == db.client
            && (forall u | u in db.manifests :: u in after.manifests && after.manifests[u] == db.manifests[u])
            && (forall u | u in db.manifests && after.InState(u, ELIGIBLE) :: db.InState(u, ELIGIBLE))
            && (forall u | u in db.manifests ::
                  Occupies(after.projections[u].liveState) == Occupies(db.projections[u].liveState))
  {
    PersistWaiting(db, s, nowMs);
    PersistRowsSound(db, s, nowMs);
    hide Persist, NewerWaits, Occupies, Database.InState;
    forall u | u in db.manifests
      ensures var after := Persist(db, s, nowMs).db;
              && u in after.manifests && after.manifests[u] == db.manifests[u]
              && (after.InState(u, ELIGIBLE) ==> db.InState(u, ELIGIBLE))
              && Occupies(after.projections[u].liveState) == Occupies(db.projections[u].liveState)
    {
      PersistKeeps(db, s, nowMs, u);
    }
  }

  lemma PersistSlot(db: Database, s: Submission, nowMs: int)
    requires RowsSound(db) && OneSlot(db) && ClientSound(db)
    ensures OneSlot(Persist(db, s, nowMs).db) && ClientSound(Persist(db, s, nowMs).db)
  {
    PersistRows(db, s, nowMs);
    PersistWaiting(db, s, nowMs);
    var result := Persist(db, s, nowMs);
    if result.outcome == Inserted {
      hide Persist, Insert, NewerWaits, Fits, Acceptable;
      forall u | u in result.db.projections
        ensures Occupies(result.db.projections[u].liveState)
                <==> result.db.client.inFlight.Some? && result.db.client.inFlight.value.uid == u
      {
        if u != s.uid {
          assert u in db.projections;
        }
      }
    }
  }

  lemma PersistFront(db: Database, s: Submission, nowMs: int)
    requires Sound(db)
    ensures OneInFront(Persist(db, s, nowMs).db)
    ensures forall u | u in db.manifests && InFront(Persist(db, s, nowMs).db, u) :: InFront(db, u)
    ensures forall u | u in db.manifests && InFront(db, u) && Persist(db, s, nowMs).db.InState(u, ELIGIBLE) ::
              InFront(Persist(db, s, nowMs).db, u)
  {
    var after := Persist(db, s, nowMs).db;
    PersistRows(db, s, nowMs);
    PersistWaiting(db, s, nowMs);
    hide Persist, NewerWaits, Occupies, Precedes, Agree;
    forall u, v | InFront(after, u) && InFront(after, v) ensures u == v {
      if u in db.manifests && v in db.manifests {
        assert InFront(db, u) && InFront(db, v);
      }
    }
  }

  lemma {:induction false} PersistSafe(relay: Relay, s: Submission, nowMs: int)
    requires Safe(relay) && Coherent(Persist(relay.db, s, nowMs).db.manifests)
    ensures Safe(relay.(db := Persist(relay.db, s, nowMs).db))
  {
    PersistRows(relay.db, s, nowMs);
    PersistSlot(relay.db, s, nowMs);
    PersistFront(relay.db, s, nowMs);
    hide Persist, InFront, Coherent, OneSlot, ClientSound;
  }

  // ----- claiming -----

  lemma ReadSafe(relay: Relay, claimer: nat)
    requires Safe(relay)
    ensures Safe(Next(relay, ReadCandidate(claimer)))
  {
    CandidateIsInFront(relay.db);
    hide NewestEligible, Sound;
  }

  /** What claiming a set in front does to the rows. */
  lemma {:induction false} ClaimRows(db: Database, uid: string, credit: CreditIdentity, nowMs: int)
    requires RowsSound(db) && OneSlot(db) && ClientSound(db) && Claimable(db, uid)
    ensures var after := Claim(db, uid, credit, nowMs);
            && RowsSound(after) && OneSlot(after) && ClientSound(after)
            && after.manifests == db.manifests
            && after.client.watermark == Some(db.manifests[uid].Key())
            && !after.InState(uid, ELIGIBLE)
            && forall u | u != uid :: after.InState(u, ELIGIBLE) == db.InState(u, ELIGIBLE)
  {
  }

  /** Whatever is in front after a claim was in front before. */
  lemma ClaimFront(db: Database, uid: string, credit: CreditIdentity, nowMs: int, u: string)
    requires RowsSound(db) && OneSlot(db) && ClientSound(db) && Coherent(db.manifests)
    requires Claimable(db, uid) && InFront(db, uid) && InFront(Claim(db, uid, credit, nowMs), u)
    ensures InFront(db, u) && u != uid
  {
    ClaimRows(db, uid, credit, nowMs);
    hide Claim, RowsSound, OneSlot, Coherent;
    PrecedesTotal(db.manifests[u], db.manifests[uid]);
    if db.client.watermark.Some? {
      var w := db.client.watermark.value.frameSetUid;
      PrecedesTotal(db.manifests[uid], db.manifests[w]);
      if Precedes(db.manifests[u], db.manifests[w]) && uid != w {
        PrecedesTransitive(db.manifests[u], db.manifests[w], db.manifests[uid]);
      }
    }
  }

  /** Nor is any other candidate that was read still eligible. */
  lemma NoneHeld(db: Database, after: Database, held: map<nat, string>, uid: string)
    requires OneInFront(db) && HeldSound(db, held) && InFront(db, uid)
    requires after.manifests == db.manifests && !after.InState(uid, ELIGIBLE)
    requires forall u | u != uid :: after.InState(u, ELIGIBLE) == db.InState(u, ELIGIBLE)
    ensures HeldSound(after, held)
  {
    hide InFront;
  }

  lemma {:induction false} ClaimSafe(relay: Relay, claimer: nat, credit: CreditIdentity, atMs: int)
    requires Safe(relay)
    ensures Safe(Next(relay, CommitClaim(claimer, credit, atMs)))
  {
    if claimer in relay.held && Claimable(relay.db, relay.held[claimer]) {
      var uid := relay.held[claimer];
      var after := Claim(relay.db, uid, credit, atMs);
      assert InFront(relay.db, uid);
      ClaimRows(relay.db, uid, credit, atMs);
      hide Claim, RowsSound, OneSlot, ClientSound, Coherent, Precedes;
      forall u ensures !InFront(after, u) {
        if InFront(after, u) { ClaimFront(relay.db, uid, credit, atMs, u); }
      }
      NoneHeld(relay.db, after, relay.held, uid);
    }
  }

  // ----- transitions -----

  /** Moving one row and rewriting the client row. */
  function Moved(db: Database, uid: string, state: LiveState, client: ClientState): Database
    requires uid in db.projections
  {
    db.WithLive(uid, state).(client := client)
  }

  lemma MovedRows(db: Database, uid: string, state: LiveState, client: ClientState)
    requires RowsSound(db) && uid in db.projections
    ensures RowsSound(Moved(db, uid, state, client))
    ensures forall u | u != uid :: Moved(db, uid, state, client).InState(u, ELIGIBLE) == db.InState(u, ELIGIBLE)
    ensures Moved(db, uid, state, client).InState(uid, ELIGIBLE) <==> state == ELIGIBLE
  {
  }

  /** The slot stays in step when the moved row is, or was, the one in the slot. */
  lemma MovedSlot(db: Database, uid: string, state: LiveState, client: ClientState)
    requires OneSlot(db) && uid in db.projections
    requires || client.inFlight == db.client.inFlight
             || (client.inFlight.None? && db.client.inFlight.Some? && db.client.inFlight.value.uid == uid)
    requires Occupies(state) <==> client.inFlight.Some? && client.inFlight.value.uid == uid
    ensures OneSlot(Moved(db, uid, state, client))
  {
    hide Occupies;
  }

  lemma MovedClient(db: Database, uid: string, state: LiveState, client: ClientState)
    requires ClientSound(db) && uid in db.projections && client.watermark == db.client.watermark
    requires client.inFlight == db.client.inFlight || client.inFlight.None?
    requires client.reoffer == db.client.reoffer && state != ELIGIBLE
    ensures ClientSound(Moved(db, uid, state, client))
  {
  }

  lemma TransitionMoves(db: Database, key: FrameSetKey, state: LiveState, release: bool)
    ensures MatchesCurrent(db, key) ==>
      && key.frameSetUid in db.projections
      && db.client.inFlight.Some? && db.client.inFlight.value.uid == key.frameSetUid
      && Transition(db, key, state, release)
         == Moved(db, key.frameSetUid, state, if release then db.client.(inFlight := None) else db.client)
      && Transition(db, key, state, release).manifests == db.manifests
      && Transition(db, key, state, release).client.watermark == db.client.watermark
    ensures !MatchesCurrent(db, key) ==> Transition(db, key, state, release) == db
  {
  }

  lemma TransitionRows(db: Database, key: FrameSetKey, state: LiveState, release: bool)
    requires RowsSound(db) && OneSlot(db) && ClientSound(db) && state != ELIGIBLE && (release <==> !Occupies(state))
    ensures var after := Transition(db, key, state, release);
            && RowsSound(after) && OneSlot(after) && ClientSound(after)
            && after.manifests == db.manifests && after.client.watermark == db.client.watermark
            && forall u | after.InState(u, ELIGIBLE) :: db.InState(u, ELIGIBLE)
  {
    hide *;
    TransitionMoves(db, key, state, release);
    if MatchesCurrent(db, key) {
      var client := if release then db.client.(inFlight := None) else db.client;
      MovedRows(db, key.frameSetUid, state, client);
      MovedSlot(db, key.frameSetUid, state, client);
      MovedClient(db, key.frameSetUid, state, client);
    }
  }

  lemma {:induction false} TransitionSafe(relay: Relay, key: FrameSetKey, state: LiveState, release: bool)
    requires Safe(relay) && state != ELIGIBLE && (release <==> !Occupies(state))
    ensures Safe(relay.(db := Transition(relay.db, key, state, release)))
  {
    TransitionRows(relay.db, key, state, release);
    hide Transition, RowsSound, OneSlot, ClientSound, Coherent, OneInFront, HeldSound;
    FewerInFront(relay.db, Transition(relay.db, key, state, release), relay.held);
  }

  lemma FewerInFront(db: Database, after: Database, held: map<nat, string>)
    requires OneInFront(db) && HeldSound(db, held)
    requires after.manifests == db.manifests && after.client.watermark == db.client.watermark
    requires forall u | after.InState(u, ELIGIBLE) :: db.InState(u, ELIGIBLE)
    ensures OneInFront(after) && HeldSound(after, held)
  {
    hide Precedes;
    forall u | InFront(after, u) ensures InFront(db, u) {
    }
  }

  lemma RetireRows(db: Database, key: FrameSetKey, state: LiveState)
    requires RowsSound(db) && OneSlot(db) && ClientSound(db) && (state == SESSION_INACTIVE || state == REJECTED)
    ensures var after := RetireEligible(db, key, state);
            && RowsSound(after) && OneSlot(after) && ClientSound(after)
            && after.manifests == db.manifests && after.client == db.client
            && forall u | after.InState(u, ELIGIBLE) :: db.InState(u, ELIGIBLE)
  {
    var uid := key.frameSetUid;
    if uid in db.manifests && db.manifests[uid].Key() == key && db.InState(uid, ELIGIBLE) {
      assert !Occupies(db.projections[uid].liveState);
      assert RetireEligible(db, key, state) == Moved(db, uid, state, db.client);
      MovedRows(db, uid, state, db.client);
      MovedSlot(db, uid, state, db.client);
      MovedClient(db, uid, state, db.client);
      assert Moved(db, uid, state, db.client).manifests == db.manifests;
      hide RowsSound, OneSlot, ClientSound, Database.InState;
    }
  }

  lemma {:induction false} RetireSafe(relay: Relay, key: FrameSetKey, state: LiveState)
    requires Safe(relay) && (state == SESSION_INACTIVE || state == REJECTED)
    ensures Safe(relay.(db := RetireEligible(relay.db, key, state)))
  {
    RetireRows(relay.db, key, state);
    hide RetireEligible, RowsSound, OneSlot, ClientSound, Coherent, OneInFront, HeldSound;
    FewerInFront(relay.db, RetireEligible(relay.db, key, state), relay.held);
  }

  // ----- a set the processor does not know -----

  /** Offered again only when everything that waits is behind it. */
  lemma RetryIsLast(db: Database, key: FrameSetKey, u: string)
    requires Sound(db) && MatchesCurrent(db, key) && !HasNewerEligible(db, key)
    requires u in db.manifests && db.InState(u, ELIGIBLE)
    ensures u != key.frameSetUid && Precedes(db.manifests[u], db.manifests[key.frameSetUid])
  {
    LastReadyIsLast(db);
    var last := LastReady(db).value;
    assert Occupies(db.projections[key.frameSetUid].liveState);
    NewerThanWatermark(db, last);
    PrecedesTotal(db.manifests[last], db.manifests[key.frameSetUid]);
    if u != last {
      PrecedesTransitive(db.manifests[u], db.manifests[last], db.manifests[key.frameSetUid]);
    }
  }

  lemma NotFoundRows(db: Database, key: FrameSetKey)
    requires RowsSound(db) && OneSlot(db) && ClientSound(db) && MatchesCurrent(db, key)
    ensures var after := NotFound(db, key);
            && RowsSound(after) && OneSlot(after) && ClientSound(after)
            && after.manifests == db.manifests && after.client.watermark == db.client.watermark
            && after.client.inFlight.None?
            && (forall u | u != key.frameSetUid :: after.InState(u, ELIGIBLE) == db.InState(u, ELIGIBLE))
            && (after.InState(key.frameSetUid, ELIGIBLE) <==> !HasNewerEligible(db, key))
            && (!HasNewerEligible(db, key) ==> after.client.reoffer == Some(key.frameSetUid))
            && (HasNewerEligible(db, key) ==> after.client.reoffer == None)
  {
    hide HasNewerEligible, Agree;
  }

  lemma RetrySafe(relay: Relay, key: FrameSetKey)
    requires Safe(relay) && MatchesCurrent(relay.db, key) && !HasNewerEligible(relay.db, key)
    ensures OneInFront(NotFound(relay.db, key)) && HeldSound(NotFound(relay.db, key), relay.held)
  {
    var db, after := relay.db, NotFound(relay.db, key);
    NotFoundRows(db, key);
    PrecedesTotal(db.manifests[key.frameSetUid], db.manifests[key.frameSetUid]);
    hide NotFound, HasNewerEligible, MatchesCurrent;
    forall u | InFront(after, u) ensures u == key.frameSetUid {
      if u != key.frameSetUid {
        RetryIsLast(db, key, u);
      }
    }
    forall c | c in relay.held && after.InState(relay.held[c], ELIGIBLE) ensures InFront(after, relay.held[c]) {
      if relay.held[c] != key.frameSetUid {
        RetryIsLast(db, key, relay.held[c]);
      }
    }
  }

  lemma {:induction false} NotFoundSafe(relay: Relay, key: FrameSetKey)
    requires Safe(relay)
    ensures Safe(relay.(db := NotFound(relay.db, key)))
  {
    if MatchesCurrent(relay.db, key) {
      NotFoundRows(relay.db, key);
      if HasNewerEligible(relay.db, key) {
        hide NotFound, HasNewerEligible, MatchesCurrent, RowsSound, OneSlot, ClientSound, Coherent;
        FewerInFront(relay.db, NotFound(relay.db, key), relay.held);
      } else {
        hide NotFound, HasNewerEligible, RowsSound, OneSlot, ClientSound, Coherent, OneInFront, HeldSound;
        RetrySafe(relay, key);
      }
    } else {
      hide HasNewerEligible;
    }
  }
}

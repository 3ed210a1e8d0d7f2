/** Whole runs of the relay scheduler: offers never go backwards, one set is out at a time,
    endings are final. The order of sets comes from the matcher's numbering. */
module RelayOffers {
  import opened Wrappers
  import opened RelaySpec
  import opened RelayRuns
  import opened RelaySafety

  // ----- every step is safe -----

  /** Rows are never removed and never rewritten. */
  ghost predicate Extends(after: map<string, Manifest>, before: map<string, Manifest>)
  {
    forall u | u in before :: u in after && after[u] == before[u]
  }

  lemma StepExtends(relay: Relay, step: Step)
    requires WellFormed(step) && RowsSound(relay.db)
    ensures Extends(Next(relay, step).db.manifests, relay.db.manifests)
    ensures !step.PersistSet? ==> Next(relay, step).db.manifests == relay.db.manifests
  {
    hide Persist, NewestEligible, HasNewerEligible;
    if step.PersistSet? {
      PersistRows(relay.db, step.submission, step.nowMs);
    }
  }

  lemma CoherentPart(after: map<string, Manifest>, before: map<string, Manifest>)
    requires Extends(after, before) && Coherent(after)
    ensures Coherent(before)
  {
  }

  lemma {:induction false} StepSafe(relay: Relay, step: Step)
    requires WellFormed(step) && Safe(relay) && Coherent(Next(relay, step).db.manifests)
    ensures Safe(Next(relay, step))
  {
    hide Safe, Coherent, Persist, NotFound, Transition, RetireEligible, Claim;
    match step
    case PersistSet(submission, nowMs) => PersistSafe(relay, submission, nowMs);
    case ReadCandidate(claimer) => ReadSafe(relay, claimer);
    case CommitClaim(claimer, credit, atMs) => ClaimSafe(relay, claimer, credit, atMs);
    case Interrupted(key) => TransitionSafe(relay, key, UNRESOLVED, false);
    case Reported(key, status) => TransitionSafe(relay, key, status, Releases(status));
    case Released(key, cause) => TransitionSafe(relay, key, cause, true);
    case Retired(key, reason) => RetireSafe(relay, key, reason);
    case Missing(key) => NotFoundSafe(relay, key);
  }

  // ----- offers -----

  /** The later offer repeats the earlier set, marked to be offered again, or comes after it. */
  ghost predicate Follows(manifests: map<string, Manifest>, earlier: Offer, later: Offer)
  {
    && earlier.uid in manifests && later.uid in manifests
    && if later.again then later.uid == earlier.uid else Precedes(manifests[earlier.uid], manifests[later.uid])
  }

  ghost predicate OffersInOrder(manifests: map<string, Manifest>, offers: seq<Offer>)
  {
    && (offers != [] ==> !offers[0].again)
    && (forall i | 0 <= i < |offers| :: offers[i].uid in manifests)
    && (forall i | 0 < i < |offers| :: Follows(manifests, offers[i - 1], offers[i]))
  }

  /** The last offer is the watermark. */
  ghost predicate Logged(relay: Relay)
  {
    && OffersInOrder(relay.db.manifests, relay.offers)
    && match relay.db.client.watermark
       case None => relay.offers == []
       case Some(key) => relay.offers != [] && relay.offers[|relay.offers| - 1].uid == key.frameSetUid
  }

  lemma OrderExtends(before: map<string, Manifest>, after: map<string, Manifest>, offers: seq<Offer>)
    requires OffersInOrder(before, offers) && Extends(after, before)
    ensures OffersInOrder(after, offers)
  {
    hide Precedes;
  }

  lemma ClaimFollows(relay: Relay, claimer: nat)
    requires Safe(relay) && Logged(relay) && claimer in relay.held && Claimable(relay.db, relay.held[claimer])
    ensures var offer := Offer(relay.held[claimer], relay.db.client.reoffer == Some(relay.held[claimer]));
            OffersInOrder(relay.db.manifests, relay.offers + [offer])
  {
    var db, uid := relay.db, relay.held[claimer];
    assert InFront(db, uid);
    if db.client.watermark.Some? {
      PrecedesTotal(db.manifests[uid], db.manifests[db.client.watermark.value.frameSetUid]);
    }
    hide Precedes, OneSlot, OneInFront, Coherent, HeldSound;
    var offer := Offer(uid, db.client.reoffer == Some(uid));
    var all := relay.offers + [offer];
    forall i | 0 < i < |all| ensures Follows(db.manifests, all[i - 1], all[i]) {
      if i < |relay.offers| {
        assert Follows(db.manifests, relay.offers[i - 1], relay.offers[i]);
      }
    }
  }

  lemma WatermarkMovesOnClaim(relay: Relay, step: Step)
    requires WellFormed(step) && RowsSound(relay.db) && !step.CommitClaim?
    ensures Next(relay, step).db.client.watermark == relay.db.client.watermark
    ensures Next(relay, step).offers == relay.offers
  {
    hide RowsSound, NewestEligible, HasNewerEligible, Persist;
    if step.PersistSet? {
      PersistWaiting(relay.db, step.submission, step.nowMs);
    }
  }

  lemma SameLog(before: Relay, after: Relay)
    requires Logged(before) && Extends(after.db.manifests, before.db.manifests)
    requires after.offers == before.offers && after.db.client.watermark == before.db.client.watermark
    ensures Logged(after)
  {
    hide OffersInOrder;
    OrderExtends(before.db.manifests, after.db.manifests, before.offers);
  }

  lemma CommitLogged(relay: Relay, claimer: nat, credit: CreditIdentity, atMs: int)
    requires Safe(relay) && Logged(relay)
    ensures Logged(Next(relay, CommitClaim(claimer, credit, atMs)))
  {
    if claimer in relay.held && Claimable(relay.db, relay.held[claimer]) {
      ClaimFollows(relay, claimer);
      assert relay.db.manifests[relay.held[claimer]].uid == relay.held[claimer];
      hide Safe, OffersInOrder;
    }
  }

  lemma StepLogged(relay: Relay, step: Step)
    requires WellFormed(step) && Safe(relay) && Logged(relay)
    ensures Logged(Next(relay, step))
  {
    StepExtends(relay, step);
    if step.CommitClaim? {
      CommitLogged(relay, step.claimer, step.credit, step.atMs);
    } else {
      WatermarkMovesOnClaim(relay, step);
      hide Safe, Logged, Next, Extends;
      SameLog(relay, Next(relay, step));
    }
  }

  lemma {:induction false} RunSafe(relay: Relay, steps: seq<Step>)
    requires forall i | 0 <= i < |steps| :: WellFormed(steps[i])
    requires Safe(relay) && Logged(relay) && Coherent(RunSteps(relay, steps).db.manifests)
    ensures Safe(RunSteps(relay, steps)) && Logged(RunSteps(relay, steps))
    decreases |steps|
  {
    if steps != [] {
      StepRows(relay, steps[0]);
      RunExtends(Next(relay, steps[0]), steps[1..]);
      CoherentPart(RunSteps(relay, steps).db.manifests, Next(relay, steps[0]).db.manifests);
      StepSafe(relay, steps[0]);
      StepLogged(relay, steps[0]);
      hide Safe, Logged, Coherent, Next;
      RunSafe(Next(relay, steps[0]), steps[1..]);
    }
  }

  lemma TransitionKeepsRows(db: Database, key: FrameSetKey, state: LiveState, release: bool)
    requires RowsSound(db)
    ensures RowsSound(Transition(db, key, state, release))
  {
    TransitionMoves(db, key, state, release);
    hide RowsSound, Transition;
    if MatchesCurrent(db, key) {
      MovedRows(db, key.frameSetUid, state, if release then db.client.(inFlight := None) else db.client);
    }
  }

  lemma StepRows(relay: Relay, step: Step)
    requires WellFormed(step) && RowsSound(relay.db)
    ensures RowsSound(Next(relay, step).db)
  {
    hide RowsSound, Persist, NewestEligible, HasNewerEligible, Transition, Claim, RetireEligible, ReconcileNotFound;
    match step
    case PersistSet(submission, nowMs) => PersistRowsSound(relay.db, submission, nowMs);
    case ReadCandidate(claimer) =>
    case CommitClaim(claimer, credit, atMs) =>
      if claimer in relay.held && Claimable(relay.db, relay.held[claimer]) {
        ClaimKeepsRows(relay.db, relay.held[claimer], credit, atMs);
      }
    case Interrupted(key) => TransitionKeepsRows(relay.db, key, UNRESOLVED, false);
    case Reported(key, status) => TransitionKeepsRows(relay.db, key, status, Releases(status));
    case Released(key, cause) => TransitionKeepsRows(relay.db, key, cause, true);
    case Retired(key, reason) => RetireKeepsRows(relay.db, key, reason);
    case Missing(key) => NotFoundKeepsRows(relay.db, key);
  }

  lemma ClaimKeepsRows(db: Database, uid: string, credit: CreditIdentity, nowMs: int)
    requires RowsSound(db) && Claimable(db, uid)
    ensures RowsSound(Claim(db, uid, credit, nowMs))
  {
    var client := Claim(db, uid, credit, nowMs).client;
    assert Claim(db, uid, credit, nowMs) == Moved(db, uid, OFFERED, client);
    hide RowsSound, Claim;
    MovedRows(db, uid, OFFERED, client);
  }

  lemma RetireKeepsRows(db: Database, key: FrameSetKey, state: LiveState)
    requires RowsSound(db) && (state == SESSION_INACTIVE || state == REJECTED)
    ensures RowsSound(RetireEligible(db, key, state))
  {
    if key.frameSetUid in db.projections {
      MovedRows(db, key.frameSetUid, state, db.client);
      assert db.WithLive(key.frameSetUid, state) == Moved(db, key.frameSetUid, state, db.client);
    }
    hide RowsSound;
  }

  lemma NotFoundKeepsRows(db: Database, key: FrameSetKey)
    requires RowsSound(db)
    ensures RowsSound(NotFound(db, key))
  {
    hide HasNewerEligible;
    if MatchesCurrent(db, key) {
      var state := if HasNewerEligible(db, key) then SUPERSEDED_BEFORE_OFFER else ELIGIBLE;
      assert NotFound(db, key) == Moved(db, key.frameSetUid, state, NotFound(db, key).client);
      MovedRows(db, key.frameSetUid, state, NotFound(db, key).client);
    }
    hide RowsSound, NotFound;
  }

  lemma {:induction false} RunExtends(relay: Relay, steps: seq<Step>)
    requires forall i | 0 <= i < |steps| :: WellFormed(steps[i])
    requires RowsSound(relay.db)
    ensures Extends(RunSteps(relay, steps).db.manifests, relay.db.manifests)
    decreases |steps|
  {
    if steps != [] {
      StepExtends(relay, steps[0]);
      StepRows(relay, steps[0]);
      hide RowsSound, Next;
      RunExtends(Next(relay, steps[0]), steps[1..]);
    }
  }

  lemma StartSafe()
    ensures Safe(START) && Logged(START)
  {
  }

  /** In every run whose sets are coherently numbered: exactly the in-flight set occupies the
      slot, in flight is the watermark, only the watermark is ever offered again, and
      offers follow one another in order. */
  lemma {:induction false} ReachableSafe(steps: seq<Step>)
    requires forall i | 0 <= i < |steps| :: WellFormed(steps[i])
    requires Coherent(RunSteps(START, steps).db.manifests)
    ensures Safe(RunSteps(START, steps)) && Logged(RunSteps(START, steps))
  {
    StartSafe();
    hide Safe, Logged, Coherent, Next;
    RunSafe(START, steps);
  }

  // ----- endings -----

  ghost predicate StillEnded(before: Database, after: Database, u: string)
    requires u in before.projections
  {
    u in after.projections && after.projections[u].liveState == before.projections[u].liveState
  }

  lemma PersistKeepsEnding(db: Database, s: Submission, nowMs: int, u: string)
    requires RowsSound(db) && u in db.projections && Final(db.projections[u].liveState)
    ensures StillEnded(db, Persist(db, s, nowMs).db, u)
  {
    PersistWaiting(db, s, nowMs);
    hide Persist, NewerWaits;
  }

  lemma TransitionKeepsEnding(db: Database, key: FrameSetKey, state: LiveState, release: bool, u: string)
    requires OneSlot(db) && u in db.projections && Final(db.projections[u].liveState)
    ensures StillEnded(db, Transition(db, key, state, release), u)
  {
  }

  lemma StepKeepsEndings(relay: Relay, step: Step, u: string)
    requires WellFormed(step) && RowsSound(relay.db) && OneSlot(relay.db)
    requires u in relay.db.projections && Final(relay.db.projections[u].liveState)
    ensures StillEnded(relay.db, Next(relay, step).db, u)
  {
    match step
    case PersistSet(submission, nowMs) =>
      hide Persist, RowsSound, OneSlot, StillEnded;
      PersistKeepsEnding(relay.db, submission, nowMs, u);
    case Interrupted(key) =>
      hide Transition, RowsSound, OneSlot, StillEnded;
      TransitionKeepsEnding(relay.db, key, UNRESOLVED, false, u);
    case Reported(key, status) =>
      hide Transition, RowsSound, OneSlot, StillEnded;
      TransitionKeepsEnding(relay.db, key, status, Releases(status), u);
    case Released(key, cause) =>
      hide Transition, RowsSound, OneSlot, StillEnded;
      TransitionKeepsEnding(relay.db, key, cause, true, u);
    case _ =>
      hide NewestEligible, HasNewerEligible, RowsSound;
  }

  /** A set that has ended keeps its state for the rest of the run. */
  lemma {:induction false} EndingsAreFinal(relay: Relay, steps: seq<Step>, u: string)
    requires forall i | 0 <= i < |steps| :: WellFormed(steps[i])
    requires Safe(relay) && Coherent(RunSteps(relay, steps).db.manifests)
    requires u in relay.db.projections && Final(relay.db.projections[u].liveState)
    ensures u in RunSteps(relay, steps).db.projections
    ensures RunSteps(relay, steps).db.projections[u].liveState == relay.db.projections[u].liveState
    decreases |steps|
  {
    if steps != [] {
      StepRows(relay, steps[0]);
      RunExtends(Next(relay, steps[0]), steps[1..]);
      CoherentPart(RunSteps(relay, steps).db.manifests, Next(relay, steps[0]).db.manifests);
      StepSafe(relay, steps[0]);
      StepKeepsEndings(relay, steps[0], u);
      hide Safe, Coherent, Next, Final;
      EndingsAreFinal(Next(relay, steps[0]), steps[1..], u);
    }
  }
}

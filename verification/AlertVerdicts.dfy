/** Which answer an alert gets, and what it leaves in the tables, said of the alert and the
    tables alone. */
module AlertVerdicts {
  import opened Wrappers
  import opened AlertReceiver

  /** The text has a character that is not white space. */
  ghost predicate Filled(text: string)
  {
    exists c ::
      && c in text
      && c as int !in {9, 10, 11, 12, 13, 28, 29, 30, 31, 32, 133, 160, 5760, 8192, 8193, 8194, 8195, 8196, 8197, 8198,
                       8199, 8200, 8201, 8202, 8232, 8233, 8239, 8287, 12288}
  }

  ghost predicate AllNamed(e: Envelope)
  {
    && Filled(e.idempotencyKey) && Filled(e.payloadDigest) && Filled(e.processingJobId)
    && Filled(e.frameSetUid) && Filled(e.transitionEventId) && Filled(e.hazardKey)
  }

  /** The states are known, the severity is the one of the new state, the version goes up by one,
      and both times are positive. */
  predicate WellStated(e: Envelope)
  {
    && e.fromState in {"CLEAR", "WARNING", "DANGER", "UNKNOWN"}
    && (e.toState, e.severity)
       in {("CLEAR", "info"), ("WARNING", "warning"), ("DANGER", "danger"), ("UNKNOWN", "warning")}
    && 0 <= e.fromVersion && e.toVersion == e.fromVersion + 1
    && 0 < e.observationMs && 0 < e.deadlineMs
  }

  /** The hazard is at the alert's version and state, or is new and the alert starts at zero. */
  predicate StartsAtHazard(t: Tables, e: Envelope)
  {
    if e.hazardKey in t.hazards then t.hazards[e.hazardKey] == Hazard(e.fromState, e.fromVersion)
    else e.fromVersion == 0
  }

  predicate Received(d: Delivery)
  {
    d.nowMs > 0 && d.envelope.payload.Some?
  }

  lemma FilledIsNotBlank(text: string)
    ensures Filled(text) <==> !Blank(text)
  {
    if !Blank(text) {
      var i :| 0 <= i < |text| && !Whitespace(text[i]);
      assert text[i] in text;
    }
  }

  lemma NamedAreFilled(e: Envelope)
    ensures AllNamed(e)
            <==> !(|| Blank(e.idempotencyKey) || Blank(e.payloadDigest) || Blank(e.processingJobId)
                   || Blank(e.frameSetUid) || Blank(e.transitionEventId) || Blank(e.hazardKey))
  {
    hide Blank, Filled;
    FilledIsNotBlank(e.idempotencyKey);
    FilledIsNotBlank(e.payloadDigest);
    FilledIsNotBlank(e.processingJobId);
    FilledIsNotBlank(e.frameSetUid);
    FilledIsNotBlank(e.transitionEventId);
    FilledIsNotBlank(e.hazardKey);
  }

  /** The answer to a new alert, each one under its exact condition. */
  lemma {:induction false} NewAlertVerdict(t: Tables, d: Delivery)
    requires Received(d) && d.envelope.idempotencyKey !in t.receipts
    ensures var e, status := d.envelope, Answer(t, d).status;
            var addressed, intact := e.contractVersion == 1 && AllNamed(e), e.payload.value == e.payloadDigest;
            && (status == APPLIED <==> addressed && intact && WellStated(e) && StartsAtHazard(t, e))
            && (status == VERSION_GAP <==> addressed && intact && WellStated(e) && !StartsAtHazard(t, e))
            && (status == CONFLICT <==> addressed && !intact)
            && (status == REJECTED <==> !addressed || (intact && !WellStated(e)))
  {
    NamedAreFilled(d.envelope);
    hide Blank, Filled, AllNamed;
  }

  /** The version of the hazard, zero for a new one. */
  function StoredVersion(t: Tables, hazardKey: string): int
  {
    if hazardKey in t.hazards then t.hazards[hazardKey].version else 0
  }

  /** What a new alert leaves: its receipt says what was answered; only an applied alert moves
      its hazard and has an effect row. */
  lemma {:induction false} NewAlertRows(t: Tables, d: Delivery)
    requires Received(d) && d.envelope.idempotencyKey !in t.receipts
    ensures var e, answer, after := d.envelope, Answer(t, d), Deliver(t, d);
            var applied, met := answer.status == APPLIED, d.nowMs < e.deadlineMs;
            && answer == Result(answer.status, if applied then e.toVersion else StoredVersion(t, e.hazardKey),
                                applied, d.nowMs, if applied then Some(met) else None)
            && after.receipts
               == t.receipts[e.idempotencyKey := Receipt(e.payloadDigest, e.hazardKey, answer.status,
                                                         answer.hazardVersion, d.nowMs, answer.deadlineMet)]
            && after.hazards
               == (if applied then t.hazards[e.hazardKey := Hazard(e.toState, e.toVersion)] else t.hazards)
            && after.effects
               == (if applied then t.effects + [Effect(e.idempotencyKey, e.hazardKey, e.toVersion, e.payload.value,
                                                       d.nowMs, met)]
                   else t.effects)
            && after.conflicts == t.conflicts
  {
    hide Validate;
    NotApplied(d.envelope);
  }

  lemma NotApplied(e: Envelope)
    requires e.payload.Some?
    ensures Validate(e) != Some(APPLIED)
  {
    hide Blank;
  }

  /** A known key: with another digest it is a conflict that leaves a conflict row; with the same
      it gets the recorded answer, an applied one as a duplicate. */
  lemma {:induction false} KnownAlertVerdict(t: Tables, d: Delivery)
    requires Received(d) && d.envelope.idempotencyKey in t.receipts
    ensures var e, answer, after := d.envelope, Answer(t, d), Deliver(t, d);
            var receipt := t.receipts[e.idempotencyKey];
            if receipt.payloadDigest == e.payloadDigest then
              && after == t
              && answer == Result(if receipt.status == APPLIED then DUPLICATE else receipt.status,
                                  receipt.hazardVersion, false, d.nowMs, receipt.deadlineMet)
            else
              && after == t.(conflicts :=
                    t.conflicts + [DigestConflict(e.idempotencyKey, e.payloadDigest, d.nowMs)])
              && answer == Result(CONFLICT, StoredVersion(t, e.hazardKey), false, d.nowMs, None)
  {
  }

  /** Without a clock or a payload nothing is written and nothing answered. */
  lemma {:induction false} NotReceived(t: Tables, d: Delivery)
    ensures Readable(d) <==> Received(d)
    ensures !Received(d) ==> Deliver(t, d) == t
  {
  }
}

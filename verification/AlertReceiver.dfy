/** The alert receiver: every alert is applied at most once, and only onto the version of
    its hazard that it was computed from. */
module AlertReceiver {
  import opened Wrappers
  import opened Sequences

  const CONTRACT_VERSION := 1

  /** `payload` is the canonical text of the alert, absent when there is none; the text
      stands for its digest. */
  datatype Envelope = Envelope(
    contractVersion: int,
    idempotencyKey: string,
    payloadDigest: string,
    processingJobId: string,
    frameSetUid: string,
    transitionEventId: string,
    hazardKey: string,
    fromState: string,
    toState: string,
    fromVersion: int,
    toVersion: int,
    severity: string,
    observationMs: int,
    deadlineMs: int,
    payload: Option<string>)

  datatype Status = APPLIED | DUPLICATE | CONFLICT | REJECTED | VERSION_GAP

  datatype Hazard = Hazard(state: string, version: int)

  datatype Receipt = Receipt(
    payloadDigest: string, hazardKey: string, status: Status, hazardVersion: int, receivedAtMs: int,
    deadlineMet: Option<bool>)

  datatype Effect = Effect(
    idempotencyKey: string, hazardKey: string, hazardVersion: int, payload: string, createdAtMs: int, deadlineMet: bool)

  datatype DigestConflict = DigestConflict(idempotencyKey: string, claimedDigest: string, receivedAtMs: int)

  datatype Tables = Tables(
    hazards: map<string, Hazard>,
    receipts: map<string, Receipt>,
    effects: seq<Effect>,
    conflicts: seq<DigestConflict>)

  const NO_TABLES := Tables(map[], map[], [], [])

  datatype Result = Result(
    status: Status, hazardVersion: int, effectApplied: bool, receivedAtMs: int, deadlineMet: Option<bool>)

  // ----- validation -----

  /** The characters that `str.strip` removes. */
  predicate Whitespace(c: char)
  {
    var code := c as int;
    || 9 <= code <= 13 || 28 <= code <= 32 || code == 133 || code == 160 || code == 5760
    || 8192 <= code <= 8202 || code == 8232 || code == 8233 || code == 8239 || code == 8287 || code == 12288
  }

  predicate Blank(text: string)
  {
    forall i | 0 <= i < |text| :: Whitespace(text[i])
  }

  predicate KnownState(state: string)
  {
    state == "CLEAR" || state == "WARNING" || state == "DANGER" || state == "UNKNOWN"
  }

  function ExpectedSeverity(state: string): string
    requires KnownState(state)
  {
    if state == "CLEAR" then "info" else if state == "DANGER" then "danger" else "warning"
  }

  /** Why an alert is turned away, if it is. */
  function Validate(e: Envelope): Option<Status>
    requires e.payload.Some?
  {
    if e.contractVersion != CONTRACT_VERSION then Some(REJECTED)
    else if Blank(e.idempotencyKey) || Blank(e.payloadDigest) || Blank(e.processingJobId) || Blank(e.frameSetUid)
            || Blank(e.transitionEventId) || Blank(e.hazardKey) then Some(REJECTED)
    else if e.payload.value != e.payloadDigest then Some(CONFLICT)
    else if !KnownState(e.fromState) || !KnownState(e.toState) then Some(REJECTED)
    else if ExpectedSeverity(e.toState) != e.severity then Some(REJECTED)
    else if e.fromVersion < 0 || e.toVersion != e.fromVersion + 1 then Some(REJECTED)
    else if e.observationMs <= 0 || e.deadlineMs <= 0 then Some(REJECTED)
    else None
  }

  // ----- one delivery -----

  datatype Delivery = Delivery(envelope: Envelope, nowMs: int)

  /** A delivery without a clock or without canonical payload is an error: nothing is written. */
  predicate Readable(d: Delivery)
  {
    d.nowMs > 0 && d.envelope.payload.Some?
  }

  function VersionOf(t: Tables, hazardKey: string): int
  {
    if hazardKey in t.hazards then t.hazards[hazardKey].version else 0
  }

  /** The alert starts where its hazard is; a new hazard is at version zero in any state. */
  predicate Continues(t: Tables, e: Envelope)
  {
    && VersionOf(t, e.hazardKey) == e.fromVersion
    && (e.hazardKey in t.hazards ==> t.hazards[e.hazardKey].state == e.fromState)
  }

  /** The alert is new, valid, and starts where its hazard is. */
  predicate Applies(t: Tables, d: Delivery)
  {
    && Readable(d) && d.envelope.idempotencyKey !in t.receipts
    && Validate(d.envelope).None? && Continues(t, d.envelope)
  }

  function WithReceipt(t: Tables, d: Delivery, status: Status, version: int, deadlineMet: Option<bool>): Tables
  {
    var e := d.envelope;
    var receipt := Receipt(e.payloadDigest, e.hazardKey, status, version, d.nowMs, deadlineMet);
    t.(receipts := t.receipts[e.idempotencyKey := receipt])
  }

  function Answer(t: Tables, d: Delivery): Result
    requires Readable(d)
  {
    var e := d.envelope;
    var version := VersionOf(t, e.hazardKey);
    if e.idempotencyKey in t.receipts then
      var previous := t.receipts[e.idempotencyKey];
      if previous.payloadDigest != e.payloadDigest then Result(CONFLICT, version, false, d.nowMs, None)
      else
        Result(if previous.status == APPLIED then DUPLICATE else previous.status,
               previous.hazardVersion, false, d.nowMs, previous.deadlineMet)
    else if Validate(e).Some? then Result(Validate(e).value, version, false, d.nowMs, None)
    else if !Continues(t, e) then Result(VERSION_GAP, version, false, d.nowMs, None)
    else Result(APPLIED, e.toVersion, true, d.nowMs, Some(d.nowMs < e.deadlineMs))
  }

  function Deliver(t: Tables, d: Delivery): Tables
  {
    var e := d.envelope;
    if !Readable(d) then t
    else if e.idempotencyKey in t.receipts then
      if t.receipts[e.idempotencyKey].payloadDigest != e.payloadDigest
      then t.(conflicts := t.conflicts + [DigestConflict(e.idempotencyKey, e.payloadDigest, d.nowMs)])
      else t
    else if Validate(e).Some? then WithReceipt(t, d, Validate(e).value, VersionOf(t, e.hazardKey), None)
    else if !Continues(t, e) then WithReceipt(t, d, VERSION_GAP, VersionOf(t, e.hazardKey), None)
    else
      var met := d.nowMs < e.deadlineMs;
      WithReceipt(t, d, APPLIED, e.toVersion, Some(met)).(
        hazards := t.hazards[e.hazardKey := Hazard(e.toState, e.toVersion)],
        effects := t.effects + [Effect(e.idempotencyKey, e.hazardKey, e.toVersion, e.payload.value, d.nowMs, met)])
  }

  // ----- deliveries -----

  function ReceiveAll(t: Tables, deliveries: seq<Delivery>): Tables
    decreases |deliveries|
  {
    if deliveries == [] then t else ReceiveAll(Deliver(t, deliveries[0]), deliveries[1..])
  }

  /** The alerts that were applied, in order. */
  function Applied(t: Tables, deliveries: seq<Delivery>): seq<Envelope>
    decreases |deliveries|
  {
    if deliveries == [] then []
    else
      (if Applies(t, deliveries[0]) then [deliveries[0].envelope] else [])
      + Applied(Deliver(t, deliveries[0]), deliveries[1..])
  }

  function OfHazard(alerts: seq<Envelope>, hazardKey: string): seq<Envelope>
  {
    if alerts == [] then []
    else (if alerts[0].hazardKey == hazardKey then [alerts[0]] else []) + OfHazard(alerts[1..], hazardKey)
  }

  function EffectsOf(effects: seq<Effect>, hazardKey: string): seq<Effect>
  {
    if effects == [] then []
    else (if effects[0].hazardKey == hazardKey then [effects[0]] else []) + EffectsOf(effects[1..], hazardKey)
  }

  // ----- hazard histories are gapless -----

  /** The k-th alert of a hazard takes it from version k to k + 1, and from the state in
      which the one before left it. */
  predicate Gapless(alerts: seq<Envelope>)
  {
    && (forall i | 0 <= i < |alerts| :: alerts[i].fromVersion == i && alerts[i].toVersion == i + 1)
    && (forall i | 0 < i < |alerts| :: alerts[i].fromState == alerts[i - 1].toState)
  }

  /** The hazard is where its last alert left it. */
  predicate EndsAt(alerts: seq<Envelope>, hazards: map<string, Hazard>, hazardKey: string)
  {
    if alerts == [] then hazardKey !in hazards
    else
      && hazardKey in hazards
      && hazards[hazardKey] == Hazard(alerts[|alerts| - 1].toState, |alerts|)
  }

  /** The effect rows of a hazard are its alerts, version by version. */
  predicate RowsOf(effects: seq<Effect>, alerts: seq<Envelope>)
  {
    && |effects| == |alerts|
    && forall i | 0 <= i < |alerts| ::
         && effects[i].hazardVersion == i + 1
         && effects[i].idempotencyKey == alerts[i].idempotencyKey
         && alerts[i].payload == Some(effects[i].payload)
  }

  lemma {:induction false} OfHazardAppend(a: seq<Envelope>, b: seq<Envelope>, h: string)
    ensures OfHazard(a + b, h) == OfHazard(a, h) + OfHazard(b, h)
  {
    if a == [] {
      EmptyLeft(b);
      EmptyLeft(OfHazard(b, h));
    } else {
      assert (a + b)[0] == a[0] && (a + b)[1..] == a[1..] + b;
      OfHazardAppend(a[1..], b, h);
      Associative(if a[0].hazardKey == h then [a[0]] else [], OfHazard(a[1..], h), OfHazard(b, h));
    }
  }

  lemma {:induction false} EffectsOfAppend(a: seq<Effect>, b: seq<Effect>, h: string)
    ensures EffectsOf(a + b, h) == EffectsOf(a, h) + EffectsOf(b, h)
  {
    if a == [] {
      EmptyLeft(b);
      EmptyLeft(EffectsOf(b, h));
    } else {
      assert (a + b)[0] == a[0] && (a + b)[1..] == a[1..] + b;
      EffectsOfAppend(a[1..], b, h);
      Associative(if a[0].hazardKey == h then [a[0]] else [], EffectsOf(a[1..], h), EffectsOf(b, h));
    }
  }

  /** What holds of one hazard after some alerts have been applied. */
  ghost predicate History(t: Tables, past: seq<Envelope>, h: string)
  {
    Gapless(past) && EndsAt(past, t.hazards, h) && RowsOf(EffectsOf(t.effects, h), past)
  }

  /** What a delivery does to the hazards and the effects. */
  lemma {:induction false} DeliveredRows(t: Tables, d: Delivery)
    ensures !Applies(t, d) ==> Deliver(t, d).hazards == t.hazards && Deliver(t, d).effects == t.effects
    ensures Applies(t, d) ==>
      var e := d.envelope;
      && e.payload.Some? && e.fromVersion >= 0 && e.toVersion == e.fromVersion + 1 && Continues(t, e)
      && Deliver(t, d).hazards == t.hazards[e.hazardKey := Hazard(e.toState, e.toVersion)]
      && Deliver(t, d).effects == t.effects
         + [Effect(e.idempotencyKey, e.hazardKey, e.toVersion, e.payload.value, d.nowMs, d.nowMs < e.deadlineMs)]
  {
    hide Blank, KnownState, ExpectedSeverity;
  }

  lemma GaplessAppend(past: seq<Envelope>, e: Envelope)
    requires Gapless(past) && e.fromVersion == |past| && e.toVersion == |past| + 1
    requires past != [] ==> e.fromState == past[|past| - 1].toState
    ensures Gapless(past + [e])
  {
  }

  lemma RowsAppend(effects: seq<Effect>, alerts: seq<Envelope>, effect: Effect, e: Envelope)
    requires RowsOf(effects, alerts) && effect.hazardVersion == |alerts| + 1
    requires effect.idempotencyKey == e.idempotencyKey && e.payload == Some(effect.payload)
    ensures RowsOf(effects + [effect], alerts + [e])
  {
  }

  lemma OneOfHazard(e: Envelope, h: string)
    ensures OfHazard([e], h) == if e.hazardKey == h then [e] else []
    ensures OfHazard([], h) == []
  {
  }

  lemma OneEffectOf(effect: Effect, h: string)
    ensures EffectsOf([effect], h) == if effect.hazardKey == h then [effect] else []
  {
  }

  lemma AppliedHistory(t: Tables, d: Delivery, past: seq<Envelope>)
    requires Applies(t, d) && History(t, past, d.envelope.hazardKey)
    ensures History(Deliver(t, d), past + [d.envelope], d.envelope.hazardKey)
  {
    var e, h := d.envelope, d.envelope.hazardKey;
    DeliveredRows(t, d);
    var effect := Effect(e.idempotencyKey, h, e.toVersion, e.payload.value, d.nowMs, d.nowMs < e.deadlineMs);
    hide Deliver, Applies, EffectsOf, OfHazard, Validate;
    EffectsOfAppend(t.effects, [effect], h);
    OneEffectOf(effect, h);
    GaplessAppend(past, e);
    RowsAppend(EffectsOf(t.effects, h), past, effect, e);
    hide Gapless, RowsOf;
    assert (past + [e])[|past|] == e;
  }

  lemma StepHistory(t: Tables, d: Delivery, past: seq<Envelope>, h: string)
    requires History(t, past, h)
    ensures History(Deliver(t, d), past + OfHazard(if Applies(t, d) then [d.envelope] else [], h), h)
  {
    DeliveredRows(t, d);
    OneOfHazard(d.envelope, h);
    EmptyRight(past);
    if Applies(t, d) {
      var e := d.envelope;
      if e.hazardKey == h {
        hide History, Deliver, OfHazard, Applies;
        AppliedHistory(t, d, past);
      } else {
        hide Gapless, RowsOf, Deliver, OfHazard, Applies, EffectsOf;
        var effect := Effect(e.idempotencyKey, e.hazardKey, e.toVersion, e.payload.value, d.nowMs,
            d.nowMs < e.deadlineMs);
        EffectsOfAppend(t.effects, [effect], h);
        OneEffectOf(effect, h);
        EmptyRight(EffectsOf(t.effects, h));
      }
    } else {
      hide Gapless, RowsOf, Deliver, OfHazard, Applies, EffectsOf;
    }
  }

  lemma {:induction false} RunHistory(t: Tables, deliveries: seq<Delivery>, past: seq<Envelope>, h: string)
    requires History(t, past, h)
    ensures History(ReceiveAll(t, deliveries), past + OfHazard(Applied(t, deliveries), h), h)
    decreases |deliveries|
  {
    if deliveries == [] {
      EmptyRight(past);
    } else {
      var first := if Applies(t, deliveries[0]) then [deliveries[0].envelope] else [];
      var rest := Applied(Deliver(t, deliveries[0]), deliveries[1..]);
      StepHistory(t, deliveries[0], past, h);
      OfHazardAppend(first, rest, h);
      hide History, Deliver, Applies, OfHazard;
      RunHistory(Deliver(t, deliveries[0]), deliveries[1..], past + OfHazard(first, h), h);
      Associative(past, OfHazard(first, h), OfHazard(rest, h));
    }
  }

  /** For every hazard: the applied alerts carry versions 1 to v once each and chain from
      state to state; v and the last state are what is stored; the effect rows match. */
  lemma {:induction false} HazardsAreGapless(deliveries: seq<Delivery>, h: string)
    ensures var t, alerts := ReceiveAll(NO_TABLES, deliveries), OfHazard(Applied(NO_TABLES, deliveries), h);
            && Gapless(alerts)
            && (if alerts == [] then h !in t.hazards
                else h in t.hazards && t.hazards[h] == Hazard(alerts[|alerts| - 1].toState, |alerts|))
            && RowsOf(EffectsOf(t.effects, h), alerts)
  {
    RunHistory(NO_TABLES, deliveries, [], h);
    hide ReceiveAll, Applied, OfHazard;
    EmptyLeft(OfHazard(Applied(NO_TABLES, deliveries), h));
  }

  // ----- retransmissions -----

  /** The first readable delivery of every idempotency key. */
  function FirstDeliveries(deliveries: seq<Delivery>, seen: set<string>): seq<Delivery>
    decreases |deliveries|
  {
    if deliveries == [] then []
    else
      var key := deliveries[0].envelope.idempotencyKey;
      if !Readable(deliveries[0]) || key in seen then FirstDeliveries(deliveries[1..], seen)
      else [deliveries[0]] + FirstDeliveries(deliveries[1..], seen + {key})
  }

  predicate SameRecord(a: Tables, b: Tables)
  {
    a.hazards == b.hazards && a.receipts == b.receipts && a.effects == b.effects
  }

  /** Conflict rows influence nothing else. */
  lemma ReceiveSame(a: Tables, b: Tables, d: Delivery)
    requires SameRecord(a, b)
    ensures SameRecord(Deliver(a, d), Deliver(b, d))
    ensures d.envelope.idempotencyKey in a.receipts || !Readable(d) ==> SameRecord(Deliver(a, d), a)
    ensures Deliver(a, d).receipts.Keys
            == if Readable(d) then a.receipts.Keys + {d.envelope.idempotencyKey} else a.receipts.Keys
  {
    hide Validate;
  }

  lemma {:induction false} RetransmissionsFrom(a: Tables, b: Tables, deliveries: seq<Delivery>)
    requires SameRecord(a, b)
    ensures SameRecord(ReceiveAll(a, deliveries), ReceiveAll(b, FirstDeliveries(deliveries, a.receipts.Keys)))
    decreases |deliveries|
  {
    if deliveries != [] {
      var d := deliveries[0];
      ReceiveSame(a, b, d);
      hide Deliver;
      if !Readable(d) || d.envelope.idempotencyKey in a.receipts {
        assert SameRecord(Deliver(a, d), b);
        RetransmissionsFrom(Deliver(a, d), b, deliveries[1..]);
      } else {
        var rest := FirstDeliveries(deliveries[1..], a.receipts.Keys + {d.envelope.idempotencyKey});
        assert ([d] + rest)[0] == d && ([d] + rest)[1..] == rest;
        RetransmissionsFrom(Deliver(a, d), Deliver(b, d), deliveries[1..]);
      }
    }
  }

  /** Retransmissions leave no trace: hazards, receipts and effects are those of the first
      delivery of every key. */
  lemma {:induction false} RetransmissionsInvisible(deliveries: seq<Delivery>)
    ensures SameRecord(ReceiveAll(NO_TABLES, deliveries), ReceiveAll(NO_TABLES, FirstDeliveries(deliveries, {})))
  {
    assert NO_TABLES.receipts.Keys == {};
    RetransmissionsFrom(NO_TABLES, NO_TABLES, deliveries);
  }

  lemma {:induction false} ReceiptsStay(t: Tables, deliveries: seq<Delivery>, key: string)
    requires key in t.receipts
    ensures key in ReceiveAll(t, deliveries).receipts && ReceiveAll(t, deliveries).receipts[key] == t.receipts[key]
    decreases |deliveries|
  {
    if deliveries != [] {
      ReceiptStays(t, deliveries[0], key);
      hide Deliver;
      ReceiptsStay(Deliver(t, deliveries[0]), deliveries[1..], key);
    }
  }

  lemma ReceiptStays(t: Tables, d: Delivery, key: string)
    requires key in t.receipts
    ensures key in Deliver(t, d).receipts && Deliver(t, d).receipts[key] == t.receipts[key]
  {
    hide Validate;
  }

  /** A later delivery of the same alert repeats the first answer, an applied one as a
      duplicate, and changes nothing, whatever came between. */
  lemma {:induction false} RedeliveryRepeatsAnswer(t: Tables, first: Delivery, between: seq<Delivery>, again: Delivery)
    requires Readable(first) && Readable(again) && first.envelope.idempotencyKey !in t.receipts
    requires again.envelope.idempotencyKey == first.envelope.idempotencyKey
    requires again.envelope.payloadDigest == first.envelope.payloadDigest
    ensures var before := ReceiveAll(Deliver(t, first), between);
            var answer, repeated := Answer(t, first), Answer(before, again);
            && Deliver(before, again) == before
            && repeated.status == (if answer.status == APPLIED then DUPLICATE else answer.status)
            && repeated.hazardVersion == answer.hazardVersion
            && repeated.deadlineMet == answer.deadlineMet
            && !repeated.effectApplied
  {
    hide Validate;
    ReceiptsStay(Deliver(t, first), between, first.envelope.idempotencyKey);
    hide ReceiveAll;
  }

  // ----- the receiver -----

  class RelayV2AlertReceiver {
    var hazards: map<string, Hazard>
    var receipts: map<string, Receipt>
    var effects: seq<Effect>
    var conflicts: seq<DigestConflict>

    function State(): Tables
      reads this
    {
      Tables(hazards, receipts, effects, conflicts)
    }

    constructor ()
      ensures State() == NO_TABLES
    {
      hazards, receipts, effects, conflicts := map[], map[], [], [];
    }

    method RecordReceipt(e: Envelope, nowMs: int, status: Status, version: int, deadlineMet: Option<bool>)
      modifies this`receipts
      ensures State() == WithReceipt(old(State()), Delivery(e, nowMs), status, version, deadlineMet)
    {
      var receipt := Receipt(e.payloadDigest, e.hazardKey, status, version, nowMs, deadlineMet);
      receipts := receipts[e.idempotencyKey := receipt];
    }

    /** One delivery is one transaction; `None` is the error of an unreadable delivery. */
    method Receive(e: Envelope, nowMs: int) returns (result: Option<Result>)
      modifies this
      ensures State() == Deliver(old(State()), Delivery(e, nowMs))
      ensures result == if Readable(Delivery(e, nowMs)) then Some(Answer(old(State()), Delivery(e, nowMs))) else None
    {
      if nowMs <= 0 || e.payload.None? {
        return None;
      }
      hide Validate;
      var version := VersionOf(State(), e.hazardKey);
      if e.idempotencyKey in receipts {
        var previous := receipts[e.idempotencyKey];
        if previous.payloadDigest != e.payloadDigest {
          conflicts := conflicts + [DigestConflict(e.idempotencyKey, e.payloadDigest, nowMs)];
          return Some(Result(CONFLICT, version, false, nowMs, None));
        }
        return Some(Result(
          if previous.status == APPLIED then DUPLICATE else previous.status,
          previous.hazardVersion, false, nowMs, previous.deadlineMet));
      }
      var rejection := Validate(e);
      if rejection.Some? {
        RecordReceipt(e, nowMs, rejection.value, version, None);
        return Some(Result(rejection.value, version, false, nowMs, None));
      }
      var currentState := if e.hazardKey in hazards then hazards[e.hazardKey].state else e.fromState;
      if version != e.fromVersion || currentState != e.fromState {
        RecordReceipt(e, nowMs, VERSION_GAP, version, None);
        return Some(Result(VERSION_GAP, version, false, nowMs, None));
      }
      var met := nowMs < e.deadlineMs;
      hazards := hazards[e.hazardKey := Hazard(e.toState, e.toVersion)];
      effects := effects + [Effect(e.idempotencyKey, e.hazardKey, e.toVersion, e.payload.value, nowMs, met)];
      RecordReceipt(e, nowMs, APPLIED, e.toVersion, Some(met));
      return Some(Result(APPLIED, e.toVersion, true, nowMs, Some(met)));
    }
  }
}

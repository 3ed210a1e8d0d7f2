/** The scheduler fed by the matcher: because the matcher's numbers and times grow together,
    the times of successive offers strictly increase. */
module RelayFromMatcher {
  import opened Sequences
  import Identifiers
  import opened SyncModels
  import opened SyncSpec
  import opened RelaySpec
  import opened RelayRuns
  import opened RelaySafety
  import opened RelayOffers

  function Submissions(steps: seq<Step>): seq<Submission>
  {
    if steps == [] then []
    else (if steps[0].PersistSet? then [steps[0].submission] else []) + Submissions(steps[1..])
  }

  /** The row was written for the submission. */
  predicate RowOf(row: Manifest, s: Submission)
  {
    && row.uid == s.uid
    && row.captureRunId == s.frameSet.captureRunId
    && row.frameSetId == s.frameSet.frameSetId
    && row.synchronizedAtMs == s.frameSet.synchronizedAtMs
  }

  ghost predicate AllFrom(manifests: map<string, Manifest>, subs: seq<Submission>)
  {
    forall u | u in manifests :: exists i | 0 <= i < |subs| :: RowOf(manifests[u], subs[i])
  }

  lemma StepFrom(relay: Relay, step: Step, subs: seq<Submission>)
    requires WellFormed(step) && RowsSound(relay.db) && AllFrom(relay.db.manifests, subs)
    ensures AllFrom(Next(relay, step).db.manifests, if step.PersistSet? then subs + [step.submission] else subs)
  {
    StepExtends(relay, step);
    if step.PersistSet? {
      var s := step.submission;
      PersistWaiting(relay.db, s, step.nowMs);
      hide Persist, RowsSound, RowOf;
      var more := subs + [s];
      forall u | u in Next(relay, step).db.manifests
        ensures exists i | 0 <= i < |more| :: RowOf(Next(relay, step).db.manifests[u], more[i])
      {
        if u in relay.db.manifests {
          var i :| 0 <= i < |subs| && RowOf(relay.db.manifests[u], subs[i]);
          assert more[i] == subs[i];
        } else {
          NewRow(s, step.nowMs);
          assert more[|subs|] == s;
        }
      }
    }
  }

  lemma NewRow(s: Submission, nowMs: int)
    requires s.frameSet.identity.sessionId.Some?
    ensures RowOf(ManifestRow(s, nowMs), s)
  {
  }

  lemma {:induction false} RunFrom(relay: Relay, steps: seq<Step>, subs: seq<Submission>)
    requires forall i | 0 <= i < |steps| :: WellFormed(steps[i])
    requires RowsSound(relay.db) && AllFrom(relay.db.manifests, subs)
    ensures AllFrom(RunSteps(relay, steps).db.manifests, subs + Submissions(steps))
    decreases |steps|
  {
    if steps == [] {
      EmptyRight(subs);
    } else {
      StepFrom(relay, steps[0], subs);
      StepRows(relay, steps[0]);
      hide RowsSound, AllFrom, Next;
      if steps[0].PersistSet? {
        RunFrom(Next(relay, steps[0]), steps[1..], subs + [steps[0].submission]);
        Associative(subs, [steps[0].submission], Submissions(steps[1..]));
      } else {
        RunFrom(Next(relay, steps[0]), steps[1..], subs);
        EmptyLeft(Submissions(steps[1..]));
      }
    }
  }

  /** Each submission hands over one of the emitted sets, in whatever order and as often as
      it may be; `origin` says which. A set has one uid. */
  predicate HandsOver(subs: seq<Submission>, sets: seq<FrameSet>, origin: seq<nat>)
  {
    && |origin| == |subs|
    && (forall i | 0 <= i < |subs| ::
          && origin[i] < |sets|
          && subs[i].frameSet.captureRunId == sets[origin[i]].captureRunId
          && subs[i].frameSet.frameSetId == sets[origin[i]].frameSetId
          && subs[i].frameSet.synchronizedAtMs == sets[origin[i]].synchronizedAtMs)
    && (forall i, j | 0 <= i < |subs| && 0 <= j < |subs| && origin[i] == origin[j] :: subs[i].uid == subs[j].uid)
  }

  lemma RowsAgree(
      sets: seq<FrameSet>, subs: seq<Submission>, origin: seq<nat>, a: Manifest, b: Manifest, i: nat, j: nat)
    requires Identifiers.Coherent(sets) && HandsOver(subs, sets, origin)
    requires i < |subs| && j < |subs| && RowOf(a, subs[i]) && RowOf(b, subs[j]) && a.uid != b.uid
    ensures Agree(a, b) && a.synchronizedAtMs != b.synchronizedAtMs
  {
    var k, l := origin[i], origin[j];
    assert k != l;
    assert if k < l then Identifiers.Before(sets[k], sets[l]) else Identifiers.Before(sets[l], sets[k]);
  }

  lemma {:induction false} HandedOverAgree(
      manifests: map<string, Manifest>, sets: seq<FrameSet>, subs: seq<Submission>, origin: seq<nat>)
    requires Identifiers.Coherent(sets) && HandsOver(subs, sets, origin) && AllFrom(manifests, subs)
    requires forall u | u in manifests :: manifests[u].uid == u
    ensures Coherent(manifests) && TimesDiffer(manifests)
  {
    hide RowOf, HandsOver, Agree;
    forall u, v | u in manifests && v in manifests
      ensures Agree(manifests[u], manifests[v])
      ensures manifests[u].uid != manifests[v].uid ==> manifests[u].synchronizedAtMs != manifests[v].synchronizedAtMs
    {
      var i :| 0 <= i < |subs| && RowOf(manifests[u], subs[i]);
      var j :| 0 <= j < |subs| && RowOf(manifests[v], subs[j]);
      if manifests[u].uid != manifests[v].uid {
        RowsAgree(sets, subs, origin, manifests[u], manifests[v], i, j);
      } else {
        SameUidAgrees(manifests[u], manifests[v]);
      }
    }
  }

  lemma SameUidAgrees(a: Manifest, b: Manifest)
    requires a.uid == b.uid
    ensures Agree(a, b)
  {
  }

  lemma {:induction false} RunRows(relay: Relay, steps: seq<Step>)
    requires forall i | 0 <= i < |steps| :: WellFormed(steps[i])
    requires RowsSound(relay.db)
    ensures RowsSound(RunSteps(relay, steps).db)
    decreases |steps|
  {
    if steps != [] {
      StepRows(relay, steps[0]);
      hide RowsSound, Next;
      RunRows(Next(relay, steps[0]), steps[1..]);
    }
  }

  /** Offered times strictly increase, except when the watermark set itself is offered again. */
  lemma {:induction false} OffersMoveForward(
    config: Config, pruning: bool, size: nat, runId: string, inputs: seq<Input>,
    steps: seq<Step>, origin: seq<nat>, i: nat)
    requires Identifiers.FreshRuns(inputs, {runId})
    requires HandsOver(Submissions(steps), Run(config, pruning, Initial(size, runId), inputs).emitted, origin)
    requires forall i | 0 <= i < |steps| :: WellFormed(steps[i])
    requires 0 < i < |RunSteps(START, steps).offers|
    ensures var relay := RunSteps(START, steps);
            var earlier, later := relay.offers[i - 1], relay.offers[i];
            && earlier.uid in relay.db.manifests && later.uid in relay.db.manifests
            && (later.again ==> later.uid == earlier.uid)
            && (!later.again ==>
                  relay.db.manifests[earlier.uid].synchronizedAtMs < relay.db.manifests[later.uid].synchronizedAtMs)
  {
    var sets, subs := Run(config, pruning, Initial(size, runId), inputs).emitted, Submissions(steps);
    Identifiers.SetsAreCoherent(config, pruning, size, runId, inputs);
    RunFrom(START, steps, []);
    EmptyLeft(subs);
    var relay := RunSteps(START, steps);
    RunRows(START, steps);
    HandedOverAgree(relay.db.manifests, sets, subs, origin);
    ReachableSafe(steps);
    hide Run, RunSteps, Identifiers.Coherent, Coherent, HandsOver, AllFrom;
    assert Follows(relay.db.manifests, relay.offers[i - 1], relay.offers[i]);
    PrecedesTotal(relay.db.manifests[relay.offers[i].uid], relay.db.manifests[relay.offers[i - 1].uid]);
  }
}

/** The number and the time of a frame set grow together: times along every run of the
    matcher, numbers within one capture run. The relay's notion of "newer" rests on it. */
module Identifiers {
  import opened Wrappers
  import opened Sequences
  import opened SyncModels
  import opened SyncSpec
  import opened IdentityResolution
  import opened PruningInvisible

  /** Later sets have later times, and higher numbers when the capture run is the same. */
  predicate Before(a: FrameSet, b: FrameSet)
  {
    && a.synchronizedAtMs < b.synchronizedAtMs
    && (a.captureRunId == b.captureRunId ==> a.frameSetId < b.frameSetId)
  }

  predicate Coherent(sets: seq<FrameSet>)
  {
    forall i, j | 0 <= i < j < |sets| :: Before(sets[i], sets[j])
  }

  /** Numbers go up by one within a capture run and start again at one in the next. */
  predicate Consecutive(sets: seq<FrameSet>)
  {
    && (sets != [] ==> sets[0].frameSetId == 1)
    && forall i | 0 < i < |sets| ::
         sets[i].frameSetId
         == if sets[i].captureRunId == sets[i - 1].captureRunId then sets[i - 1].frameSetId + 1 else 1
  }

  /** Run ids drawn along the inputs have never been used before. */
  predicate FreshRuns(inputs: seq<Input>, used: set<string>)
  {
    && (forall i | 0 <= i < |inputs| :: inputs[i].freshRunId !in used)
    && (forall i, j | 0 <= i < j < |inputs| :: inputs[i].freshRunId != inputs[j].freshRunId)
  }

  /** The matcher is ahead of every set it has emitted. */
  ghost predicate Ahead(m: MatcherState, sets: seq<FrameSet>, used: set<string>)
  {
    && m.captureRunId in used
    && (forall i | 0 <= i < |sets| ::
          && sets[i].captureRunId in used
          && sets[i].synchronizedAtMs <= m.lastSynchronizedAtMs
          && (sets[i].captureRunId == m.captureRunId ==> sets[i].frameSetId < m.nextFrameSetId))
    && (if sets == [] then m.nextFrameSetId == 1
        else sets[|sets| - 1].captureRunId == m.captureRunId && sets[|sets| - 1].frameSetId + 1 == m.nextFrameSetId)
  }

  /** How emitting numbers a set. */
  lemma EmitNumbers(config: Config, state: SyncState, frames: Selection, identity: CaptureIdentity, input: Input)
    requires frames != map[] && forall d :: d in config.cameras <==> d in frames
    ensures var m, outcome := state.matcher, Emit(config, state, frames, identity, input);
            var emitted, after := outcome.emitted.value, outcome.state.matcher;
            && outcome.emitted.Some?
            && emitted.captureRunId == after.captureRunId
            && emitted.frameSetId + 1 == after.nextFrameSetId
            && emitted.synchronizedAtMs == after.lastSynchronizedAtMs
            && emitted.synchronizedAtMs > m.lastSynchronizedAtMs && emitted.synchronizedAtMs >= input.nowMs
            && (|| (emitted.captureRunId == m.captureRunId && emitted.frameSetId == m.nextFrameSetId)
                || (emitted.captureRunId == input.freshRunId && emitted.frameSetId == 1))
  {
    hide ManifestOf;
  }

  predicate Numbered(before: MatcherState, after: MatcherState, emitted: Option<FrameSet>, input: Input)
  {
    match emitted
    case None =>
      && after.captureRunId == before.captureRunId
      && after.nextFrameSetId == before.nextFrameSetId
      && after.lastSynchronizedAtMs == before.lastSynchronizedAtMs
    case Some(e) =>
      && e.captureRunId == after.captureRunId
      && e.frameSetId + 1 == after.nextFrameSetId
      && e.synchronizedAtMs == after.lastSynchronizedAtMs
      && e.synchronizedAtMs > before.lastSynchronizedAtMs
      && e.synchronizedAtMs >= input.nowMs
      && (|| (e.captureRunId == before.captureRunId && e.frameSetId == before.nextFrameSetId)
          || (e.captureRunId == input.freshRunId && e.frameSetId == 1))
  }

  lemma AttemptNumbers(config: Config, state: SyncState, input: Input)
    requires config.cameras != []
    ensures var attempt := Attempt(config, state, input);
            Numbered(state.matcher, attempt.state.matcher, attempt.emitted, input)
  {
    hide Attempt, Best, Resolve, Emit;
    var best := Best(config, state);
    if best.None? || Resolve(Members(config.cameras, best.value)).ScopeConflict? {
      AttemptMisses(config, state, input);
    } else {
      var identity := Resolve(Members(config.cameras, best.value)).identity;
      AttemptEmits(config, state, input, best.value, identity);
      EmitNumbers(config, state, best.value, identity, input);
    }
  }

  lemma {:induction false} StepNumbers(config: Config, pruning: bool, state: SyncState, input: Input)
    ensures var step := HandleFrame(config, pruning, state, input);
            Numbered(state.matcher, step.state.matcher, step.emitted, input)
  {
    hide Attempt;
    var added := state.(buffers := state.buffers.AddFrame(Stored(input.frame)));
    if config.cameras != [] {
      AttemptNumbers(config, added, input);
    }
  }

  lemma NumberedStaysAhead(
    before: MatcherState, after: MatcherState, emitted: Option<FrameSet>, input: Input, sets: seq<FrameSet>,
        used: set<string>)
    requires Numbered(before, after, emitted, input) && Ahead(before, sets, used) && input.freshRunId !in used
    requires Coherent(sets) && Consecutive(sets)
    ensures Ahead(after, sets + AsSeq(emitted), used + {input.freshRunId})
    ensures Coherent(sets + AsSeq(emitted)) && Consecutive(sets + AsSeq(emitted))
  {
    if emitted.None? {
      assert sets + [] == sets;
    }
  }

  lemma FreshRunsRest(inputs: seq<Input>, used: set<string>)
    requires inputs != [] && FreshRuns(inputs, used)
    ensures inputs[0].freshRunId !in used && FreshRuns(inputs[1..], used + {inputs[0].freshRunId})
  {
  }

  lemma {:induction false} RunNumbers(
    config: Config, pruning: bool, state: SyncState, inputs: seq<Input>, sets: seq<FrameSet>, used: set<string>)
    requires Ahead(state.matcher, sets, used) && FreshRuns(inputs, used) && Coherent(sets) && Consecutive(sets)
    ensures Coherent(sets + Run(config, pruning, state, inputs).emitted)
    ensures Consecutive(sets + Run(config, pruning, state, inputs).emitted)
    decreases |inputs|
  {
    if inputs == [] {
      EmptyRight(sets);
    } else {
      FreshRunsRest(inputs, used);
      hide HandleFrame, Numbered, Ahead, Coherent, Consecutive, AsSeq, FreshRuns;
      var step := HandleFrame(config, pruning, state, inputs[0]);
      var rest := Run(config, pruning, step.state, inputs[1..]).emitted;
      StepNumbers(config, pruning, state, inputs[0]);
      NumberedStaysAhead(state.matcher, step.state.matcher, step.emitted, inputs[0], sets, used);
      RunNumbers(config, pruning, step.state, inputs[1..], sets + AsSeq(step.emitted), used + {inputs[0].freshRunId});
      Associative(sets, AsSeq(step.emitted), rest);
    }
  }

  /** Along every run of the matcher the emitted sets are coherent and consecutively numbered. */
  lemma {:induction false} SetsAreCoherent(config: Config, pruning: bool, size: nat, runId: string, inputs: seq<Input>)
    requires FreshRuns(inputs, {runId})
    ensures Coherent(Run(config, pruning, Initial(size, runId), inputs).emitted)
    ensures Consecutive(Run(config, pruning, Initial(size, runId), inputs).emitted)
  {
    RunNumbers(config, pruning, Initial(size, runId), inputs, [], {runId});
    hide Coherent, Consecutive, Run;
    var sets := Run(config, pruning, Initial(size, runId), inputs).emitted;
    EmptyLeft(sets);
  }
}

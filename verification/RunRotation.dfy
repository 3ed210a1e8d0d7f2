/** When the matcher begins a new capture run, said of the sets it emits. */
module RunRotation {
  import opened Wrappers
  import opened Sequences
  import opened SyncModels
  import opened BufferSpec
  import opened IdentityResolution
  import opened SyncSpec
  import opened PruningInvisible
  import opened Identifiers

  /** The inputs at which sets are emitted, one for each set. */
  ghost function Triggers(config: Config, pruning: bool, state: SyncState, inputs: seq<Input>): seq<Input>
    decreases |inputs|
  {
    if inputs == [] then []
    else
      var step := HandleFrame(config, pruning, state, inputs[0]);
      (if step.emitted.Some? then [inputs[0]] else []) + Triggers(config, pruning, step.state, inputs[1..])
  }

  predicate SameCapture(a: CaptureIdentity, b: CaptureIdentity)
  {
    a.sessionId == b.sessionId && a.configKey == b.configKey && a.authorization == b.authorization
  }

  /** The identity of the last set that has a session. */
  function LastIdentity(sets: seq<FrameSet>): Option<CaptureIdentity>
  {
    if sets == [] then None
    else
      var last := sets[|sets| - 1].identity;
      if last.sessionId.Some? then Some(last) else LastIdentity(sets[..|sets| - 1])
  }

  function LastRun(sets: seq<FrameSet>, runId: string): string
  {
    if sets == [] then runId else sets[|sets| - 1].captureRunId
  }

  /** The set is of another capture than the last one that has a session. */
  predicate IsOther(sets: seq<FrameSet>, next: FrameSet)
  {
    && next.identity.sessionId.Some? && LastIdentity(sets).Some?
    && !SameCapture(next.identity, LastIdentity(sets).value)
  }

  predicate RunFollows(sets: seq<FrameSet>, next: FrameSet, trigger: Input, runId: string)
  {
    next.captureRunId == if IsOther(sets, next) then trigger.freshRunId else LastRun(sets, runId)
  }

  ghost predicate RunsFollow(sets: seq<FrameSet>, triggers: seq<Input>, runId: string)
  {
    |sets| == |triggers| && forall j | 0 <= j < |sets| :: RunFollows(sets[..j], sets[j], triggers[j], runId)
  }

  /** The matcher remembers the last capture and the run. */
  ghost predicate Remembers(m: MatcherState, sets: seq<FrameSet>, runId: string)
  {
    && m.captureRunId == LastRun(sets, runId)
    && (match LastIdentity(sets)
        case None => m.captureSessionId.None?
        case Some(id) =>
          && m.captureSessionId == id.sessionId && m.captureConfigKey == id.configKey
          && m.authorizationKey == id.authorization)
  }

  lemma LastOfMore(sets: seq<FrameSet>, next: FrameSet, runId: string)
    ensures LastRun(sets + [next], runId) == next.captureRunId
    ensures LastIdentity(sets + [next])
            == if next.identity.sessionId.Some? then Some(next.identity) else LastIdentity(sets)
  {
    assert (sets + [next])[..|sets|] == sets;
  }

  lemma {:induction false} LastHasSession(sets: seq<FrameSet>)
    ensures LastIdentity(sets).Some? ==> LastIdentity(sets).value.sessionId.Some?
  {
    if sets != [] { LastHasSession(sets[..|sets| - 1]); }
  }

  lemma EmitRuns(
      config: Config, state: SyncState, frames: Selection, identity: CaptureIdentity, input: Input,
      sets: seq<FrameSet>, runId: string)
    requires frames != map[] && forall d :: d in config.cameras <==> d in frames
    requires Remembers(state.matcher, sets, runId)
    ensures var out := Emit(config, state, frames, identity, input);
            && out.emitted.Some? && RunFollows(sets, out.emitted.value, input, runId)
            && Remembers(out.state.matcher, sets + [out.emitted.value], runId)
  {
    hide ManifestOf, SetArchiveState, SetArchiveErrors, BufferState.ConsumeThrough, LastIdentity, LastRun;
    LastHasSession(sets);
    LastOfMore(sets, Emit(config, state, frames, identity, input).emitted.value, runId);
  }

  lemma AttemptRuns(config: Config, state: SyncState, input: Input, sets: seq<FrameSet>, runId: string)
    requires config.cameras != [] && Remembers(state.matcher, sets, runId)
    ensures var out := Attempt(config, state, input);
            && (out.emitted.None? ==> Remembers(out.state.matcher, sets, runId))
            && (out.emitted.Some? ==>
                  && RunFollows(sets, out.emitted.value, input, runId)
                  && Remembers(out.state.matcher, sets + [out.emitted.value], runId))
  {
    hide Attempt, Best, Resolve, Emit, RunFollows, LastIdentity, LastRun;
    var best := Best(config, state);
    if best.None? || Resolve(Members(config.cameras, best.value)).ScopeConflict? {
      AttemptMisses(config, state, input);
    } else {
      var identity := Resolve(Members(config.cameras, best.value)).identity;
      AttemptEmits(config, state, input, best.value, identity);
      EmitRuns(config, state, best.value, identity, input, sets, runId);
    }
  }

  lemma {:induction false} StepRuns(
      config: Config, pruning: bool, state: SyncState, input: Input, sets: seq<FrameSet>, runId: string)
    requires Remembers(state.matcher, sets, runId)
    ensures var step := HandleFrame(config, pruning, state, input);
            && Remembers(step.state.matcher, sets + AsSeq(step.emitted), runId)
            && (step.emitted.Some? ==> RunFollows(sets, step.emitted.value, input, runId))
  {
    hide Attempt, RunFollows, LastIdentity, LastRun;
    EmptyRight(sets);
    var added := state.(buffers := state.buffers.AddFrame(Stored(input.frame)));
    if config.cameras != [] {
      AttemptRuns(config, added, input, sets, runId);
    }
  }

  lemma FollowsMore(sets: seq<FrameSet>, triggers: seq<Input>, next: FrameSet, trigger: Input, runId: string)
    requires RunsFollow(sets, triggers, runId) && RunFollows(sets, next, trigger, runId)
    ensures RunsFollow(sets + [next], triggers + [trigger], runId)
  {
    hide RunFollows;
    var more, inputs := sets + [next], triggers + [trigger];
    forall j | 0 <= j < |more| ensures RunFollows(more[..j], more[j], inputs[j], runId) {
      assert more[..j] == sets[..j];
      if j == |sets| { assert sets[..j] == sets; }
    }
  }

  lemma {:induction false} RunRuns(
      config: Config, pruning: bool, state: SyncState, inputs: seq<Input>, sets: seq<FrameSet>, triggers: seq<Input>,
      runId: string)
    requires Remembers(state.matcher, sets, runId) && RunsFollow(sets, triggers, runId)
    ensures RunsFollow(sets + Run(config, pruning, state, inputs).emitted,
                       triggers + Triggers(config, pruning, state, inputs), runId)
    decreases |inputs|
  {
    if inputs == [] {
      EmptyRight(sets);
      EmptyRight(triggers);
    } else {
      hide HandleFrame, Remembers, RunsFollow, RunFollows;
      var step := HandleFrame(config, pruning, state, inputs[0]);
      var rest := Run(config, pruning, step.state, inputs[1..]).emitted;
      var first: seq<Input> := if step.emitted.Some? then [inputs[0]] else [];
      StepRuns(config, pruning, state, inputs[0], sets, runId);
      if step.emitted.Some? {
        FollowsMore(sets, triggers, step.emitted.value, inputs[0], runId);
      } else {
        EmptyRight(sets);
        EmptyRight(triggers);
      }
      RunRuns(config, pruning, step.state, inputs[1..], sets + AsSeq(step.emitted), triggers + first, runId);
      Associative(sets, AsSeq(step.emitted), rest);
      Associative(triggers, first, Triggers(config, pruning, step.state, inputs[1..]));
    }
  }

  // ----- fresh run ids -----

  lemma FreshOnTop(first: Input, rest: seq<Input>, used: set<string>)
    requires first.freshRunId !in used && FreshRuns(rest, used + {first.freshRunId})
    ensures FreshRuns([first] + rest, used) && FreshRuns(rest, used)
  {
    var all := [first] + rest;
    assert forall i | 0 < i < |all| :: all[i] == rest[i - 1];
  }

  lemma {:induction false} TriggersAreFresh(
      config: Config, pruning: bool, state: SyncState, inputs: seq<Input>, used: set<string>)
    requires FreshRuns(inputs, used)
    ensures FreshRuns(Triggers(config, pruning, state, inputs), used)
    decreases |inputs|
  {
    if inputs != [] {
      FreshRunsRest(inputs, used);
      hide HandleFrame, FreshRuns;
      var step := HandleFrame(config, pruning, state, inputs[0]);
      TriggersAreFresh(config, pruning, step.state, inputs[1..], used + {inputs[0].freshRunId});
      var rest := Triggers(config, pruning, step.state, inputs[1..]);
      FreshOnTop(inputs[0], rest, used);
      EmptyLeft(rest);
    }
  }

  /** Run ids come from the beginning or from the triggers up to then. */
  lemma {:induction false} RunsAreDrawn(sets: seq<FrameSet>, triggers: seq<Input>, runId: string, i: nat)
    requires RunsFollow(sets, triggers, runId) && i < |sets|
    ensures sets[i].captureRunId == runId
            || exists k :: 0 <= k <= i && sets[i].captureRunId == triggers[k].freshRunId
  {
    hide IsOther;
    assert RunFollows(sets[..i], sets[i], triggers[i], runId);
    if i > 0 {
      assert sets[..i][i - 1] == sets[i - 1];
      RunsAreDrawn(sets, triggers, runId, i - 1);
    }
  }

  /** Where only sets without a session lie between, the last identity is that of the first. */
  lemma {:induction false} IdentityBetween(sets: seq<FrameSet>, i: nat, j: nat)
    requires i < j <= |sets| && sets[i].identity.sessionId.Some?
    requires forall k | i < k < j :: sets[k].identity.sessionId.None?
    ensures LastIdentity(sets[..j]) == Some(sets[i].identity)
    decreases j
  {
    assert sets[..j][j - 1] == sets[j - 1] && sets[..j][..j - 1] == sets[..j - 1];
    if i < j - 1 { IdentityBetween(sets, i, j - 1); }
  }

  lemma {:induction false} RunBetween(sets: seq<FrameSet>, triggers: seq<Input>, runId: string, i: nat, j: nat)
    requires RunsFollow(sets, triggers, runId) && i < j <= |sets|
    requires forall k | i < k < j :: sets[k].identity.sessionId.None?
    ensures LastRun(sets[..j], runId) == sets[i].captureRunId
    decreases j
  {
    assert sets[..j][j - 1] == sets[j - 1];
    if i < j - 1 {
      assert RunFollows(sets[..j - 1], sets[j - 1], triggers[j - 1], runId);
      hide LastIdentity;
      RunBetween(sets, triggers, runId, i, j - 1);
    }
  }

  /** In every run: of two sets with a session and only legacy sets between them, the later is
      of the same capture run exactly if session, configuration and authorization are the same;
      otherwise its run is the fresh one of its input, and it is number one. */
  lemma {:induction false} RunsTellCaptures(
      config: Config, pruning: bool, size: nat, runId: string, inputs: seq<Input>, i: nat, j: nat)
    requires FreshRuns(inputs, {runId})
    requires i < j < |Run(config, pruning, Initial(size, runId), inputs).emitted|
    requires var sets := Run(config, pruning, Initial(size, runId), inputs).emitted;
             && sets[i].identity.sessionId.Some? && sets[j].identity.sessionId.Some?
             && forall k | i < k < j :: sets[k].identity.sessionId.None?
    ensures var sets := Run(config, pruning, Initial(size, runId), inputs).emitted;
            var triggers := Triggers(config, pruning, Initial(size, runId), inputs);
            && |triggers| == |sets|
            && (sets[i].captureRunId == sets[j].captureRunId
                <==> && sets[i].identity.sessionId == sets[j].identity.sessionId
                     && sets[i].identity.configKey == sets[j].identity.configKey
                     && sets[i].identity.authorization == sets[j].identity.authorization)
            && (sets[i].captureRunId != sets[j].captureRunId ==>
                  sets[j].captureRunId == triggers[j].freshRunId && sets[j].frameSetId == 1)
  {
    var sets := Run(config, pruning, Initial(size, runId), inputs).emitted;
    var triggers := Triggers(config, pruning, Initial(size, runId), inputs);
    AllFollow(config, pruning, size, runId, inputs);
    TriggersAreFresh(config, pruning, Initial(size, runId), inputs, {runId});
    SetsAreCoherent(config, pruning, size, runId, inputs);
    hide Run, Triggers, Coherent, LastIdentity, LastRun;
    IdentityBetween(sets, i, j);
    RunBetween(sets, triggers, runId, i, j);
    assert RunFollows(sets[..j], sets[j], triggers[j], runId);
    RunsAreDrawn(sets, triggers, runId, i);
    RunsAreDrawn(sets, triggers, runId, j - 1);
  }

  lemma AllFollow(config: Config, pruning: bool, size: nat, runId: string, inputs: seq<Input>)
    ensures RunsFollow(Run(config, pruning, Initial(size, runId), inputs).emitted,
                       Triggers(config, pruning, Initial(size, runId), inputs), runId)
  {
    assert Remembers(Initial(size, runId).matcher, [], runId) && RunsFollow([], [], runId);
    hide Run, Triggers, Remembers, RunsFollow;
    RunRuns(config, pruning, Initial(size, runId), inputs, [], [], runId);
    EmptyLeft(Run(config, pruning, Initial(size, runId), inputs).emitted);
    EmptyLeft(Triggers(config, pruning, Initial(size, runId), inputs));
  }

  /** A set without a session stays in the run of the set before it, and the first set with one
      in the run the matcher began with. */
  lemma {:induction false} LegacyKeepsRun(
      config: Config, pruning: bool, size: nat, runId: string, inputs: seq<Input>, j: nat)
    requires j < |Run(config, pruning, Initial(size, runId), inputs).emitted|
    requires var sets := Run(config, pruning, Initial(size, runId), inputs).emitted;
             sets[j].identity.sessionId.None? || forall k | 0 <= k < j :: sets[k].identity.sessionId.None?
    ensures var sets := Run(config, pruning, Initial(size, runId), inputs).emitted;
            sets[j].captureRunId == if j == 0 then runId else sets[j - 1].captureRunId
  {
    var sets := Run(config, pruning, Initial(size, runId), inputs).emitted;
    var triggers := Triggers(config, pruning, Initial(size, runId), inputs);
    AllFollow(config, pruning, size, runId, inputs);
    hide Run, Triggers;
    assert RunFollows(sets[..j], sets[j], triggers[j], runId);
    if sets[j].identity.sessionId.Some? { NoIdentity(sets[..j]); }
    if j > 0 { assert sets[..j][j - 1] == sets[j - 1]; }
  }

  lemma {:induction false} NoIdentity(sets: seq<FrameSet>)
    requires forall k | 0 <= k < |sets| :: sets[k].identity.sessionId.None?
    ensures LastIdentity(sets).None?
  {
    if sets != [] { NoIdentity(sets[..|sets| - 1]); }
  }
}

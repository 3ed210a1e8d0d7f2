/** What an emitted set says of its members, when it is timed, which sets are recent and how
    attempts are counted, said of the members and the run. */
module SetLaws {
  import opened Wrappers
  import opened Sequences
  import opened SyncModels
  import opened BufferSpec
  import opened MinSpanSweep
  import opened IdentityResolution
  import opened SyncSpec
  import opened Quiescence
  import opened PruningInvisible
  import opened RunRotation

  /** The row says what the member says. */
  predicate RowOf(row: ManifestMember, f: SyncFrame)
  {
    && row.deviceId == f.deviceId && row.source == f.source && row.sequence == f.sequence
    && row.sourceFrameUid == f.sourceFrameUid && row.timestampMs == f.timestampMs
    && row.contentDigest == f.contentDigest && row.captureConfigDigest == f.captureConfigDigest
    && row.authorizedCameraId == f.scope.authorizedCameraId && row.cameraClaimId == f.scope.cameraClaimId
    && row.authorizedSubject == f.scope.authorizedSubject && row.sessionTokenJti == f.scope.sessionTokenJti
  }

  /** The anchor is the latest time of a member, the freshness origin the earliest, the span what
      lies between, and it fits the window; the manifest says the same and has a row per member. */
  ghost predicate Describes(config: Config, e: FrameSet)
  {
    && (forall d :: d in e.frames <==> d in config.cameras)
    && (forall d | d in e.frames ::
          e.manifest.freshnessOriginMs <= e.frames[d].timestampMs <= e.anchorTimestampMs)
    && (exists d :: d in e.frames && e.frames[d].timestampMs == e.anchorTimestampMs)
    && (exists d :: d in e.frames && e.frames[d].timestampMs == e.manifest.freshnessOriginMs)
    && e.spanMs == e.anchorTimestampMs - e.manifest.freshnessOriginMs && e.spanMs <= config.windowMs
    && e.manifest.anchorTimestampMs == e.anchorTimestampMs && e.manifest.spanMs == e.spanMs
    && e.manifest.windowMs == config.windowMs && e.manifest.mode == e.identity.mode
    && e.manifest.sessionId == e.identity.sessionId && e.manifest.authorization == e.identity.authorization
    && e.manifest.members.Keys == e.frames.Keys
    && forall d | d in e.frames :: RowOf(e.manifest.members[d], e.frames[d])
  }

  lemma ManifestRows(identity: CaptureIdentity, frames: Selection, windowMs: int)
    requires frames != map[]
    ensures var manifest := ManifestOf(identity, frames, windowMs);
            && manifest.members.Keys == frames.Keys
            && forall d | d in frames :: RowOf(manifest.members[d], frames[d])
  {
    hide Span, Latest, Earliest;
  }

  lemma SetDescribes(config: Config, m: MatcherState, identity: CaptureIdentity, frames: Selection, nowMs: int)
    requires frames != map[] && (forall d :: d in config.cameras <==> d in frames) && Span(frames) <= config.windowMs
    ensures Describes(config, FrameSetOf(m, identity, frames, config.windowMs, nowMs))
  {
    var first := EarliestOf(frames);
    var last := LatestOf(frames);
    SpanIs(frames, first, last);
    ManifestRows(identity, frames, config.windowMs);
    assert Span(frames) == Latest(frames) - Earliest(frames);
    hide Span, Latest, Earliest, SetArchiveState, SetArchiveErrors, RowOf, ManifestMemberOf;
  }

  lemma EmitDescribes(config: Config, state: SyncState, frames: Selection, identity: CaptureIdentity, input: Input)
    requires frames != map[] && (forall d :: d in config.cameras <==> d in frames) && Span(frames) <= config.windowMs
    ensures Emit(config, state, frames, identity, input).emitted.Some?
    ensures Describes(config, Emit(config, state, frames, identity, input).emitted.value)
  {
    hide Describes, FrameSetOf, Span, AfterEmitting, BufferState.ConsumeThrough, BufferState.SupersededTotal;
    SetDescribes(config, ForIdentity(state.matcher, identity, input.freshRunId), identity, frames, input.nowMs);
  }

  lemma AttemptDescribes(config: Config, state: SyncState, input: Input)
    requires config.cameras != []
    ensures var emitted := Attempt(config, state, input).emitted; emitted.Some? ==> Describes(config, emitted.value)
  {
    hide Attempt, Best, Resolve, Emit, Describes, Held;
    var best := Best(config, state);
    if best.None? || Resolve(Members(config.cameras, best.value)).ScopeConflict? {
      AttemptMisses(config, state, input);
    } else {
      var identity := Resolve(Members(config.cameras, best.value)).identity;
      AttemptEmits(config, state, input, best.value, identity);
      BestIsOptimal(config, state);
      EmitDescribes(config, state, best.value, identity, input);
    }
  }

  lemma StepDescribes(config: Config, pruning: bool, state: SyncState, input: Input)
    ensures var emitted := HandleFrame(config, pruning, state, input).emitted;
            emitted.Some? ==> Describes(config, emitted.value)
  {
    hide Attempt, Prune, Describes;
    if config.cameras != [] {
      AttemptDescribes(config, state.(buffers := state.buffers.AddFrame(Stored(input.frame))), input);
    }
  }

  lemma {:induction false} EmittedDescribes(config: Config, pruning: bool, state: SyncState, inputs: seq<Input>, i: nat)
    requires i < |Run(config, pruning, state, inputs).emitted|
    ensures Describes(config, Run(config, pruning, state, inputs).emitted[i])
    decreases |inputs|
  {
    hide HandleFrame, Describes;
    var step := HandleFrame(config, pruning, state, inputs[0]);
    if i < |AsSeq(step.emitted)| {
      StepDescribes(config, pruning, state, inputs[0]);
    } else {
      EmittedDescribes(config, pruning, step.state, inputs[1..], i - |AsSeq(step.emitted)|);
    }
  }

  // ----- times and recent sets -----

  /** The clock, unless the set before it is not earlier; then one later than that. */
  predicate TimeFollows(sets: seq<FrameSet>, next: FrameSet, trigger: Input)
  {
    var last := if sets == [] then 0 else sets[|sets| - 1].synchronizedAtMs;
    next.synchronizedAtMs == if trigger.nowMs > last then trigger.nowMs else last + 1
  }

  ghost predicate TimesFollow(sets: seq<FrameSet>, triggers: seq<Input>)
  {
    |sets| == |triggers| && forall j | 0 <= j < |sets| :: TimeFollows(sets[..j], sets[j], triggers[j])
  }

  /** The newest sets, as many as are kept. */
  function Newest(sets: seq<FrameSet>, limit: nat): seq<FrameSet>
  {
    if |sets| <= limit then sets else sets[|sets| - limit..]
  }

  /** The time, the recent sets and the count are those of the sets so far. */
  ghost predicate Keeps(config: Config, m: MatcherState, sets: seq<FrameSet>)
  {
    && m.lastSynchronizedAtMs == (if sets == [] then 0 else sets[|sets| - 1].synchronizedAtMs)
    && m.recent == Newest(sets, config.recentLimit) && m.matchedCount == |sets|
  }

  lemma NewestMore(sets: seq<FrameSet>, next: FrameSet, limit: nat)
    ensures Bounded(Newest(sets, limit) + [next], limit) == Newest(sets + [next], limit)
  {
    if |sets| < limit {
      assert Newest(sets, limit) == sets;
    } else {
      var k := |sets| - limit;
      assert Newest(sets, limit) == sets[k..];
      SuffixMore(sets, next, k);
    }
  }

  lemma SuffixMore(sets: seq<FrameSet>, next: FrameSet, k: nat)
    requires k <= |sets|
    ensures sets[k..] + [next] == (sets + [next])[k..]
    ensures (sets[k..] + [next])[1..] == (sets + [next])[k + 1..]
  {
  }

  lemma EmitKeeps(
      config: Config, state: SyncState, frames: Selection, identity: CaptureIdentity, input: Input, sets: seq<FrameSet>)
    requires frames != map[] && (forall d :: d in config.cameras <==> d in frames)
    requires Keeps(config, state.matcher, sets)
    ensures var out := Emit(config, state, frames, identity, input);
            && out.emitted.Some? && TimeFollows(sets, out.emitted.value, input)
            && Keeps(config, out.state.matcher, sets + [out.emitted.value])
            && out.state.matcher.missedCount == state.matcher.missedCount
            && out.state.matcher.ignoredCount == state.matcher.ignoredCount
  {
    EmitMatcher(config, state, frames, identity, input);
    NewestMore(sets, Emit(config, state, frames, identity, input).emitted.value, config.recentLimit);
    hide Emit, Newest, Bounded;
  }

  lemma EmitMatcher(config: Config, state: SyncState, frames: Selection, identity: CaptureIdentity, input: Input)
    requires frames != map[] && (forall d :: d in config.cameras <==> d in frames)
    ensures var out, before := Emit(config, state, frames, identity, input), state.matcher;
            var after := out.state.matcher;
            && out.emitted.Some? && out.emitted.value.synchronizedAtMs == NextTime(before, input.nowMs)
            && after.lastSynchronizedAtMs == out.emitted.value.synchronizedAtMs
            && after.recent == Bounded(before.recent + [out.emitted.value], config.recentLimit)
            && after.matchedCount == before.matchedCount + 1
            && after.missedCount == before.missedCount && after.ignoredCount == before.ignoredCount
  {
    hide ManifestOf, SetArchiveState, SetArchiveErrors, Bounded, Span, Latest, BufferState.ConsumeThrough,
      BufferState.SupersededTotal;
  }

  /** What an attempt does to the counts and the sets so far. */
  ghost predicate Counts(
      config: Config, before: MatcherState, after: MatcherState, emitted: Option<FrameSet>, input: Input,
      sets: seq<FrameSet>)
  {
    && Keeps(config, after, sets + AsSeq(emitted))
    && (emitted.Some? ==> TimeFollows(sets, emitted.value, input))
    && after.missedCount + after.ignoredCount + |AsSeq(emitted)| == before.missedCount + before.ignoredCount + 1
  }

  lemma AttemptCounts(config: Config, state: SyncState, input: Input, sets: seq<FrameSet>)
    requires config.cameras != [] && Keeps(config, state.matcher, sets)
    ensures var out := Attempt(config, state, input);
            && Counts(config, state.matcher, out.state.matcher, out.emitted, input, sets)
            && out.state.matcher.ignoredCount == state.matcher.ignoredCount
  {
    hide Attempt, Best, Resolve, Emit, Newest, TimeFollows;
    EmptyRight(sets);
    var best := Best(config, state);
    if best.None? || Resolve(Members(config.cameras, best.value)).ScopeConflict? {
      AttemptMisses(config, state, input);
    } else {
      var identity := Resolve(Members(config.cameras, best.value)).identity;
      AttemptEmits(config, state, input, best.value, identity);
      EmitKeeps(config, state, best.value, identity, input, sets);
    }
  }

  lemma StepCounts(config: Config, pruning: bool, state: SyncState, input: Input, sets: seq<FrameSet>)
    requires Keeps(config, state.matcher, sets)
    ensures var step, accepts := HandleFrame(config, pruning, state, input), state.buffers.Accepts(Stored(input.frame));
            var before, after := state.matcher, step.state.matcher;
            && (accepts ==> Counts(config, before, after, step.emitted, input, sets))
            && (!accepts ==> step.emitted.None? && after == before)
            && after.ignoredCount == before.ignoredCount
               + (if accepts && config.cameras != [] && input.frame.deviceId !in config.cameras then 1 else 0)
  {
    hide Attempt, Newest, TimeFollows, BufferState.Accepts, BufferState.AddFrame, PrunedBuffers, BuildBufferKey;
    EmptyRight(sets);
    var added := state.(buffers := state.buffers.AddFrame(Stored(input.frame)));
    if config.cameras != [] { AttemptCounts(config, added, input, sets); }
  }

  // ----- whole runs -----

  /** The frames that are stored, in order. */
  ghost function StoredFrames(config: Config, pruning: bool, state: SyncState, inputs: seq<Input>): seq<SyncFrame>
    decreases |inputs|
  {
    if inputs == [] then []
    else
      var stored := Stored(inputs[0].frame);
      (if state.buffers.Accepts(stored) then [stored] else [])
      + StoredFrames(config, pruning, HandleFrame(config, pruning, state, inputs[0]).state, inputs[1..])
  }

  /** How many of the frames are of none of the cameras. */
  function OfOthers(frames: seq<SyncFrame>, cameras: seq<string>): nat
  {
    if frames == [] then 0
    else (if frames[0].deviceId in cameras then 0 else 1) + OfOthers(frames[1..], cameras)
  }

  lemma TimesMore(sets: seq<FrameSet>, triggers: seq<Input>, next: FrameSet, trigger: Input)
    requires TimesFollow(sets, triggers) && TimeFollows(sets, next, trigger)
    ensures TimesFollow(sets + [next], triggers + [trigger])
  {
    hide TimeFollows;
    var more, inputs := sets + [next], triggers + [trigger];
    forall j | 0 <= j < |more| ensures TimeFollows(more[..j], more[j], inputs[j]) {
      assert more[..j] == sets[..j];
      if j == |sets| { assert sets[..j] == sets; }
    }
  }

  lemma {:induction false} RunCounts(
      config: Config, pruning: bool, state: SyncState, inputs: seq<Input>, sets: seq<FrameSet>, triggers: seq<Input>)
    requires Keeps(config, state.matcher, sets) && TimesFollow(sets, triggers)
    ensures var run, stored := Run(config, pruning, state, inputs), StoredFrames(config, pruning, state, inputs);
            var before, after := state.matcher, run.state.matcher;
            && Keeps(config, after, sets + run.emitted)
            && TimesFollow(sets + run.emitted, triggers + Triggers(config, pruning, state, inputs))
            && after.missedCount + after.ignoredCount + |run.emitted|
               == before.missedCount + before.ignoredCount + |stored|
            && after.ignoredCount
               == before.ignoredCount + if config.cameras == [] then 0 else OfOthers(stored, config.cameras)
    decreases |inputs|
  {
    if inputs == [] {
      EmptyRight(sets);
      EmptyRight(triggers);
    } else {
      var step := HandleFrame(config, pruning, state, inputs[0]);
      var stored := Stored(inputs[0].frame);
      assert stored.deviceId == inputs[0].frame.deviceId;
      StepCounts(config, pruning, state, inputs[0], sets);
      hide HandleFrame, Keeps, TimesFollow, TimeFollows, Stored, BufferState.Accepts;
      var first: seq<Input> := if step.emitted.Some? then [inputs[0]] else [];
      EmptyRight(sets);
      EmptyRight(triggers);
      if step.emitted.Some? { TimesMore(sets, triggers, step.emitted.value, inputs[0]); }
      RunCounts(config, pruning, step.state, inputs[1..], sets + AsSeq(step.emitted), triggers + first);
      var rest := StoredFrames(config, pruning, step.state, inputs[1..]);
      Associative(sets, AsSeq(step.emitted), Run(config, pruning, step.state, inputs[1..]).emitted);
      Associative(triggers, first, Triggers(config, pruning, step.state, inputs[1..]));
      OthersMore(stored, rest, config.cameras);
      EmptyLeft(rest);
    }
  }

  lemma OthersMore(first: SyncFrame, rest: seq<SyncFrame>, cameras: seq<string>)
    ensures OfOthers([first] + rest, cameras) == (if first.deviceId in cameras then 0 else 1) + OfOthers(rest, cameras)
  {
    assert ([first] + rest)[1..] == rest;
  }

  /** In every run: a set is timed by the clock of its trigger, or just after the set before it;
      the recent sets are the newest; every stored frame is counted once, as a match, a miss or,
      from an unexpected camera, as ignored. */
  lemma {:induction false} RunsKeepCount(config: Config, pruning: bool, size: nat, runId: string, inputs: seq<Input>)
    ensures var run := Run(config, pruning, Initial(size, runId), inputs);
            var stored := StoredFrames(config, pruning, Initial(size, runId), inputs);
            var triggers := Triggers(config, pruning, Initial(size, runId), inputs);
            var m := run.state.matcher;
            && TimesFollow(run.emitted, triggers)
            && m.recent == Newest(run.emitted, config.recentLimit)
            && m.matchedCount == |run.emitted|
            && m.matchedCount + m.missedCount + m.ignoredCount == |stored|
            && m.ignoredCount == if config.cameras == [] then 0 else OfOthers(stored, config.cameras)
  {
    assert Keeps(config, Initial(size, runId).matcher, []) && TimesFollow([], []);
    hide Run, StoredFrames, Triggers, TimesFollow, Newest;
    RunCounts(config, pruning, Initial(size, runId), inputs, [], []);
    EmptyLeft(Run(config, pruning, Initial(size, runId), inputs).emitted);
    EmptyLeft(Triggers(config, pruning, Initial(size, runId), inputs));
  }
}

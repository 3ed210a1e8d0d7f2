/** A frame that is accepted again after its key has left the index joins a second frame set;
    its completion then reaches only the newer one. */
module RepeatedKeys {
  import opened Wrappers
  import opened SyncModels
  import opened BufferSpec
  import opened MinSpanSweep
  import opened IdentityResolution
  import opened SyncSpec
  import opened ArchiveSpec
  import opened Quiescence
  import opened PruningInvisible
  import Rewinds

  /** The camera waits for its next frame, and one key at most is retained and indexed. */
  predicate Idle(buffers: BufferState, d: string)
  {
    && buffers.size == 1 && buffers.Camera(d).frames == []
    && |buffers.Camera(d).retainedKeys| <= 1
    && buffers.index.Keys == (set k | k in buffers.Camera(d).retainedKeys)
  }

  lemma TrimToOne(keys: seq<string>, index: map<string, SyncFrame>, f: SyncFrame)
    requires |keys| <= 1 && index.Keys == (set k | k in keys) && f.bufferKey !in index
    ensures Trim(keys + [f.bufferKey], index[f.bufferKey := f], 1) == ([f.bufferKey], map[f.bufferKey := f])
  {
    var all := keys + [f.bufferKey];
    if keys == [] {
      assert all == [f.bufferKey];
      assert index == map[];
    } else {
      assert keys == [keys[0]] && all == [keys[0], f.bufferKey] && all[1..] == [f.bufferKey];
      assert index.Keys == {keys[0]};
      assert index[f.bufferKey := f] - {keys[0]} == map[f.bufferKey := f];
    }
  }

  lemma LegacyAppend(camera: CameraState, f: SyncFrame)
    requires camera.frames == [] && f.mode == LEGACY
    ensures camera.Append(f, 1).frames == [f] && !camera.IsOutOfOrder(f)
  {
    assert camera.ForSource(f.source).frames + [f] == [f];
  }

  lemma IdleStores(buffers: BufferState, f: SyncFrame)
    requires Idle(buffers, f.deviceId) && f.mode == LEGACY && f.bufferKey !in buffers.index
    ensures var after := buffers.AddFrame(f);
            && buffers.Accepts(f) && after.size == 1 && after.index == map[f.bufferKey := f]
            && after.Camera(f.deviceId).frames == [f] && after.Camera(f.deviceId).retainedKeys == [f.bufferKey]
  {
    AddedCamera(buffers, f, f.deviceId);
    TrimToOne(buffers.Camera(f.deviceId).retainedKeys, buffers.index, f);
    LegacyAppend(buffers.Camera(f.deviceId), f);
    hide BufferState.AddFrame, CameraState.Append, Trim;
  }

  lemma AloneFits(config: Config, buffers: BufferState, f: SyncFrame, pick: Selection)
    requires config.windowMs >= 0 && config.cameras == [f.deviceId] && buffers.Frames(f.deviceId) == [f]
    ensures Fits(Held(buffers, config.cameras), pick, config.windowMs) <==> pick == map[f.deviceId := f]
  {
    hide BufferState.Frames;
    var held := Held(buffers, config.cameras);
    assert config.cameras[0] in config.cameras && held == map[f.deviceId := [f]];
    if pick == map[f.deviceId := f] {
      assert f.deviceId in pick && pick != map[];
      SpanIs(pick, f.deviceId, f.deviceId);
      assert IsSelection(held, pick);
    }
    if Fits(held, pick, config.windowMs) {
      assert pick.Keys == {f.deviceId} && pick[f.deviceId] in held[f.deviceId];
    }
  }

  lemma AloneIsBest(config: Config, state: SyncState, f: SyncFrame)
    requires config.windowMs >= 0 && config.cameras == [f.deviceId] && state.buffers.Frames(f.deviceId) == [f]
    ensures Best(config, state) == Some(map[f.deviceId := f])
  {
    hide *;
    BestIsOptimal(config, state);
    AloneFits(config, state.buffers, f, map[f.deviceId := f]);
    AloneFits(config, state.buffers, f, Best(config, state).value);
  }

  lemma AloneEmits(config: Config, f: SyncFrame)
    requires config.cameras == [f.deviceId] && f.mode == LEGACY
    ensures Emits(config, map[f.deviceId := f], LEGACY_IDENTITY)
  {
    var frames := map[f.deviceId := f];
    assert config.cameras[0] in config.cameras && f.deviceId in frames;
    assert Members(config.cameras, frames) == [f];
    assert !([f][0].IdentityComplete());
  }

  /** The set that a single legacy frame makes. */
  lemma AloneNumbers(config: Config, state: SyncState, f: SyncFrame, input: Input)
    requires config.cameras == [f.deviceId] && |state.matcher.recent| < config.recentLimit
    ensures var frames := map[f.deviceId := f];
            && f.deviceId in frames && (forall d :: d in config.cameras <==> d in frames)
            && var out := Emit(config, state, frames, LEGACY_IDENTITY, input);
               && out.emitted.Some? && out.emitted.value.frames == frames
               && out.emitted.value.captureRunId == state.matcher.captureRunId
               && out.emitted.value.frameSetId == state.matcher.nextFrameSetId
               && out.state.matcher.captureRunId == state.matcher.captureRunId
               && out.state.matcher.nextFrameSetId == state.matcher.nextFrameSetId + 1
               && out.state.matcher.recent == state.matcher.recent + [out.emitted.value]
               && out.state.buffers == state.buffers.ConsumeThrough(frames)
  {
    var frames := map[f.deviceId := f];
    assert config.cameras[0] in config.cameras && f.deviceId in frames;
    hide ManifestOf, Span, Latest, SetArchiveState, SetArchiveErrors, BufferState.ConsumeThrough;
  }

  lemma IdleAgain(config: Config, buffers: BufferState, f: SyncFrame)
    requires config.cameras == [f.deviceId] && buffers.size == 1 && buffers.index == map[f.bufferKey := f]
    requires buffers.Camera(f.deviceId).frames == [f] && buffers.Camera(f.deviceId).retainedKeys == [f.bufferKey]
    ensures var left := PrunedBuffers(config, true, buffers.ConsumeThrough(map[f.deviceId := f]));
            Idle(left, f.deviceId) && left.index == buffers.index
  {
    var selected := map[f.deviceId := f];
    var consumed := buffers.ConsumeThrough(selected);
    ConsumedCamera(buffers, selected, f.deviceId);
    PruneThins(config, true, consumed, f.deviceId);
    assert NotBefore([f], f.timestampMs + 1) == [];
  }

  /** A legacy frame of the only camera makes a set of its own. */
  lemma LegacyStep(config: Config, state: SyncState, input: Input)
    requires config.windowMs >= 0 && config.cameras == [input.frame.deviceId] && input.frame.mode == LEGACY
    requires Idle(state.buffers, input.frame.deviceId) && BuildBufferKey(input.frame) !in state.buffers.index
    requires |state.matcher.recent| < config.recentLimit
    ensures var f, step := Stored(input.frame), HandleFrame(config, true, state, input);
            && step.emitted.Some? && step.emitted.value.frames == map[f.deviceId := f]
            && step.emitted.value.captureRunId == state.matcher.captureRunId
            && step.emitted.value.frameSetId == state.matcher.nextFrameSetId
            && step.state.matcher.captureRunId == state.matcher.captureRunId
            && step.state.matcher.nextFrameSetId == state.matcher.nextFrameSetId + 1
            && step.state.matcher.recent == state.matcher.recent + [step.emitted.value]
            && Idle(step.state.buffers, f.deviceId) && step.state.buffers.index == map[f.bufferKey := f]
  {
    var f := Stored(input.frame);
    assert f.deviceId == input.frame.deviceId && f.mode == LEGACY && f.bufferKey == BuildBufferKey(input.frame);
    var added := state.(buffers := state.buffers.AddFrame(f));
    assert f.deviceId in config.cameras by { assert config.cameras[0] == f.deviceId; }
    IdleStores(state.buffers, f);
    hide Stored, BufferState.AddFrame, BufferState.Accepts, Best, Resolve, Emit, Emits, Idle, Attempt,
      BufferState.ConsumeThrough, PrunedBuffers;
    AloneIsBest(config, added, f);
    AloneEmits(config, f);
    AttemptEmits(config, added, input, map[f.deviceId := f], LEGACY_IDENTITY);
    AloneNumbers(config, added, f, input);
    IdleAgain(config, added.buffers, f);
  }

  lemma StoredUnder(frame: SyncFrame)
    ensures Stored(frame).deviceId == frame.deviceId && Stored(frame).bufferKey == BuildBufferKey(frame)
  {
  }

  lemma InitiallyIdle(runId: string, d: string)
    ensures var start := Initial(1, runId);
            && Idle(start.buffers, d) && start.buffers.index == map[]
            && start.matcher.recent == [] && start.matcher.nextFrameSetId == 1
  {
  }

  /** Another frame pushes the first one's key out, and the first comes again. */
  lemma TwoSetsHold(config: Config, runId: string, first: Input, between: Input, again: Input)
    requires config.windowMs >= 0 && config.recentLimit >= 3 && config.cameras == [first.frame.deviceId]
    requires first.frame.mode == LEGACY && between.frame.mode == LEGACY && again.frame == first.frame
    requires between.frame.deviceId == first.frame.deviceId
    requires BuildBufferKey(between.frame) != BuildBufferKey(first.frame)
    ensures var f := Stored(first.frame);
            var after := Run(config, true, Initial(1, runId), [first, between, again]).state;
            var recent := after.matcher.recent;
            && |recent| == 3 && recent[0].frames == map[f.deviceId := f] && recent[2].frames == map[f.deviceId := f]
            && recent[0].frameSetId == 1 && recent[1].frameSetId == 2 && recent[2].frameSetId == 3
            && after.buffers.index == map[f.bufferKey := f]
  {
    hide *;
    StoredUnder(first.frame);
    StoredUnder(between.frame);
    InitiallyIdle(runId, first.frame.deviceId);
    var one := HandleFrame(config, true, Initial(1, runId), first);
    var two := HandleFrame(config, true, one.state, between);
    var three := HandleFrame(config, true, two.state, again);
    LegacyStep(config, Initial(1, runId), first);
    LegacyStep(config, one.state, between);
    LegacyStep(config, two.state, again);
    ThreeSteps(config, Initial(1, runId), first, between, again);
  }

  lemma ThreeSteps(config: Config, state: SyncState, first: Input, second: Input, third: Input)
    ensures var one := HandleFrame(config, true, state, first).state;
            var two := HandleFrame(config, true, one, second).state;
            Run(config, true, state, [first, second, third]).state == HandleFrame(config, true, two, third).state
  {
    hide HandleFrame;
    RunLast(config, true, state, [], first);
    RunLast(config, true, state, [first], second);
    RunLast(config, true, state, [first, second], third);
    assert [] + [first] == [first] && [first] + [second] == [first, second];
    assert [first, second] + [third] == [first, second, third];
  }

  /** The completion updates the newer of the two sets only. */
  lemma NewerIsUpdated(config: Config, state: SyncState, frame: SyncFrame, archive: Archive)
    requires var f, recent := Stored(frame), state.matcher.recent;
             && config.cameras == [f.deviceId] && state.buffers.index == map[f.bufferKey := f]
             && |recent| == 3 && recent[2].frames == map[f.deviceId := f]
             && recent[0].frameSetId != recent[2].frameSetId
    ensures var recent := FinalizeFrameArchive(config, state, frame, None, archive).state.matcher.recent;
            && |recent| == 3 && recent[0] == state.matcher.recent[0]
            && recent[2].frames == map[Stored(frame).deviceId := Stored(frame).(archive := archive)]
  {
    var f, recent := Stored(frame), state.matcher.recent;
    var updated := f.(archive := archive);
    assert f.bufferKey == BuildBufferKey(frame) && f.bufferKey in state.buffers.index;
    assert f.deviceId in recent[2].frames && recent[2].frames[f.deviceId].bufferKey == f.bufferKey;
    assert HoldsKey(recent[2], f.bufferKey);
    hide BuildBufferKey, HoldsKey, SetArchiveState, SetArchiveErrors, Stored;
    assert CompletedFrame(config, state, f.bufferKey, None) == Some(f);
    assert Target(recent, None, f.bufferKey) == Some(recent[2]);
    assert config.cameras[0] == f.deviceId;
    assert WithMember(config.cameras, recent[2].frames, updated) == map[f.deviceId := updated];
    assert ReplaceTarget(config, recent, None, updated) == Some(ReplaceFrameMember(config, recent[2], updated));
  }

  /** A buffer of one frame: the same legacy frame is handled twice, with another one between.
      Two recent sets hold it, and its completion leaves the older one pending. */
  lemma {:induction false} OlderSetStaysPending()
    ensures var config := Config(["left"], 50, 10);
            var first := Input(Rewinds.PlainFrame("left", "a", 1000), 1, "x");
            var between := Input(Rewinds.PlainFrame("left", "b", 1000), 2, "y");
            var again := Input(Rewinds.PlainFrame("left", "a", 1000), 3, "z");
            var done := Archive(Some(1), Some("a.jpg"), ARCHIVE_DURABLE, None);
            var state := Run(config, true, Initial(1, "run"), [first, between, again]).state;
            var recent := FinalizeFrameArchive(config, state, first.frame, None, done).state.matcher.recent;
            && |recent| == 3 && "left" in recent[0].frames && "left" in recent[2].frames
            && recent[0].frames["left"].bufferKey == recent[2].frames["left"].bufferKey
            && recent[0].frames["left"].archive.state == ARCHIVE_PENDING
            && recent[2].frames["left"].archive.state == ARCHIVE_DURABLE
  {
    var config := Config(["left"], 50, 10);
    var first := Input(Rewinds.PlainFrame("left", "a", 1000), 1, "x");
    var between := Input(Rewinds.PlainFrame("left", "b", 1000), 2, "y");
    var again := Input(Rewinds.PlainFrame("left", "a", 1000), 3, "z");
    var done := Archive(Some(1), Some("a.jpg"), ARCHIVE_DURABLE, None);
    var f := Stored(first.frame);
    assert f.deviceId == "left" && f.archive.state == ARCHIVE_PENDING;
    assert "left" in map["left" := f] && "left" in map["left" := f.(archive := done)];
    assert BuildBufferKey(first.frame)[7] == 'a' && BuildBufferKey(between.frame)[7] == 'b';
    hide Run, FinalizeFrameArchive, BuildBufferKey, Stored, Initial;
    TwoSetsHold(config, "run", first, between, again);
    NewerIsUpdated(config, Run(config, true, Initial(1, "run"), [first, between, again]).state, first.frame, done);
  }
}

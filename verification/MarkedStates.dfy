/** A step on a state with archive results written in is the step on the plain state, with
    the results written in afterwards. */
module MarkedStates {
  import opened Wrappers
  import opened SyncModels
  import opened BufferSpec
  import opened FrameOrder
  import opened MinSpanSweep
  import opened IdentityResolution
  import opened SyncSpec
  import opened ArchiveSpec
  import opened ArchiveMarks
  import opened PruningInvisible

  function MarkedCamera(done: Done, camera: CameraState): CameraState
  {
    camera.(frames := MarkedSeq(done, camera.frames))
  }

  function MarkedIndex(done: Done, index: map<string, SyncFrame>): map<string, SyncFrame>
  {
    map k | k in index :: Marked(done, index[k])
  }

  function MarkedBuffers(done: Done, buffers: BufferState): BufferState
  {
    buffers.(
      cameras := map d | d in buffers.cameras :: MarkedCamera(done, buffers.cameras[d]),
      index := MarkedIndex(done, buffers.index))
  }

  function MarkedSet(done: Done, emitted: FrameSet): FrameSet
  {
    WithFrames(emitted, MarkedSelection(done, emitted.frames))
  }

  function MarkedSets(done: Done, sets: seq<FrameSet>): (r: seq<FrameSet>)
    ensures |r| == |sets|
  {
    seq(|sets|, i requires 0 <= i < |sets| => MarkedSet(done, sets[i]))
  }

  function MarkedEmission(done: Done, emitted: Option<FrameSet>): Option<FrameSet>
  {
    if emitted.Some? then Some(MarkedSet(done, emitted.value)) else None
  }

  function MarkedMatcher(done: Done, m: MatcherState): MatcherState
  {
    m.(recent := MarkedSets(done, m.recent))
  }

  function MarkedState(done: Done, state: SyncState): SyncState
  {
    SyncState(MarkedBuffers(done, state.buffers), MarkedMatcher(done, state.matcher))
  }

  function MarkedOutcome(done: Done, outcome: Outcome): Outcome
  {
    Outcome(MarkedState(done, outcome.state), MarkedEmission(done, outcome.emitted))
  }

  // ----- buffers -----

  lemma MarkedCameraOf(done: Done, buffers: BufferState, d: string)
    ensures MarkedBuffers(done, buffers).Camera(d) == MarkedCamera(done, buffers.Camera(d))
    ensures MarkedBuffers(done, buffers).Frames(d) == MarkedSeq(done, buffers.Frames(d))
  {
    MarkedNone(done);
  }

  lemma SameBuffers(a: BufferState, b: BufferState)
    requires a.(cameras := map[], index := map[]) == b.(cameras := map[], index := map[])
    requires a.index == b.index && a.cameras.Keys == b.cameras.Keys
    requires forall d | d in a.cameras :: a.cameras[d] == b.cameras[d]
    ensures a == b
  {
    assert a.cameras == b.cameras;
  }

  lemma MarkedFramesAppend(done: Done, frames: seq<SyncFrame>, frame: SyncFrame, size: nat)
    requires Marked(done, frame) == frame
    ensures Bounded(MarkedSeq(done, frames) + [frame], size) == MarkedSeq(done, Bounded(frames + [frame], size))
  {
    MarkedOne(done, frame);
    MarkedAppend(done, frames, [frame]);
    hide *;
    MarkedBounded(done, frames + [frame], size);
  }

  lemma MarkedStart(done: Done, camera: CameraState, source: SourceIdentity)
    ensures MarkedCamera(done, camera).ForSource(source) == MarkedCamera(done, camera.ForSource(source))
  {
    MarkedNone(done);
    hide MarkedSeq;
  }

  /** What an append does besides the frames looks at no archive result. */
  lemma AppendRest(camera: CameraState, frame: SyncFrame, size: nat)
    ensures var started, after := camera.ForSource(frame.source), camera.Append(frame, size);
            && after.frames == Bounded(started.frames + [frame], size)
            && after == started.(frames := after.frames).(
                 receivedCount := camera.receivedCount + 1,
                 sequenceGapCount := camera.sequenceGapCount + started.GapBefore(frame),
                 lastSequence := if frame.sequence.Some? then frame.sequence else started.lastSequence,
                 lastTimestampMs := Some(frame.timestampMs))
  {
    hide Bounded, CameraState.GapBefore, CameraState.ForSource;
  }

  lemma SameGap(a: CameraState, b: CameraState, frame: SyncFrame)
    requires a.lastSequence == b.lastSequence
    ensures a.GapBefore(frame) == b.GapBefore(frame)
  {
  }

  lemma MarkedCameraAppend(done: Done, camera: CameraState, frame: SyncFrame, size: nat)
    requires Marked(done, frame) == frame
    ensures MarkedCamera(done, camera).Append(frame, size) == MarkedCamera(done, camera.Append(frame, size))
  {
    var started := camera.ForSource(frame.source);
    MarkedStart(done, camera, frame.source);
    MarkedFramesAppend(done, started.frames, frame, size);
    AppendRest(camera, frame, size);
    AppendRest(MarkedCamera(done, camera), frame, size);
    SameGap(started, MarkedCamera(done, started), frame);
    hide CameraState.Append, CameraState.ForSource, CameraState.GapBefore, MarkedSeq, Marked, Bounded;
  }

  lemma {:induction false} MarkedTrim(done: Done, keys: seq<string>, index: map<string, SyncFrame>, limit: nat)
    ensures Trim(keys, MarkedIndex(done, index), limit)
            == (Trim(keys, index, limit).0, MarkedIndex(done, Trim(keys, index, limit).1))
  {
    if |keys| > limit {
      MarkedTrim(done, keys[1..], index - {keys[0]}, limit);
      assert MarkedIndex(done, index - {keys[0]}) == MarkedIndex(done, index) - {keys[0]};
    }
  }

  lemma MarkedAccepts(done: Done, buffers: BufferState, frame: SyncFrame)
    ensures MarkedBuffers(done, buffers).Accepts(frame) == buffers.Accepts(frame)
    ensures MarkedBuffers(done, buffers).Camera(frame.deviceId).IsOutOfOrder(frame)
            == buffers.Camera(frame.deviceId).IsOutOfOrder(frame)
  {
    MarkedCameraOf(done, buffers, frame.deviceId);
  }

  /** What storing does to the counters and to the set of known cameras. */
  lemma AddedCounts(buffers: BufferState, frame: SyncFrame)
    ensures var added, accepted := buffers.AddFrame(frame), buffers.Accepts(frame);
            var known := frame.bufferKey in buffers.index;
            && added.size == buffers.size
            && added.receivedCount == buffers.receivedCount + (if accepted then 1 else 0)
            && added.duplicateCount == buffers.duplicateCount + (if known then 1 else 0)
            && added.outOfOrderCount == buffers.outOfOrderCount + (if known || accepted then 0 else 1)
            && added.evictedCount
               == buffers.evictedCount + (if accepted && |buffers.Frames(frame.deviceId)| == buffers.size then 1 else 0)
            && added.cameras.Keys == if known then buffers.cameras.Keys else buffers.cameras.Keys + {frame.deviceId}
  {
    hide CameraState.Append, Trim;
  }

  lemma AddedRest(a: BufferState, b: BufferState, frame: SyncFrame)
    requires a.(cameras := map[], index := map[]) == b.(cameras := map[], index := map[])
    requires a.index.Keys == b.index.Keys && a.Accepts(frame) == b.Accepts(frame)
    requires |a.Frames(frame.deviceId)| == |b.Frames(frame.deviceId)|
    ensures a.AddFrame(frame).(cameras := map[], index := map[]) == b.AddFrame(frame).(cameras := map[], index := map[])
    ensures a.cameras.Keys == b.cameras.Keys ==> a.AddFrame(frame).cameras.Keys == b.AddFrame(frame).cameras.Keys
  {
    AddedCounts(a, frame);
    AddedCounts(b, frame);
    hide *;
    assert frame.bufferKey in a.index <==> frame.bufferKey in b.index;
  }

  lemma MarkedIndexAdd(done: Done, index: map<string, SyncFrame>, frame: SyncFrame)
    requires frame.bufferKey !in done
    ensures MarkedIndex(done, index)[frame.bufferKey := frame] == MarkedIndex(done, index[frame.bufferKey := frame])
  {
  }

  lemma MarkedParts(done: Done, buffers: BufferState, d: string)
    ensures MarkedBuffers(done, buffers).index == MarkedIndex(done, buffers.index)
    ensures MarkedBuffers(done, buffers).size == buffers.size
    ensures MarkedBuffers(done, buffers).Camera(d).retainedKeys == buffers.Camera(d).retainedKeys
    ensures MarkedBuffers(done, buffers).Camera(d).lastTimestampMs == buffers.Camera(d).lastTimestampMs
  {
    MarkedCameraOf(done, buffers, d);
  }

  lemma MarkedAddIndex(done: Done, buffers: BufferState, frame: SyncFrame)
    requires buffers.Accepts(frame) ==> frame.bufferKey !in done
    ensures MarkedBuffers(done, buffers).AddFrame(frame).index == MarkedIndex(done, buffers.AddFrame(frame).index)
    ensures MarkedBuffers(done, buffers).AddFrame(frame).Camera(frame.deviceId).retainedKeys
            == buffers.AddFrame(frame).Camera(frame.deviceId).retainedKeys
  {
    hide *;
    var d, marked := frame.deviceId, MarkedBuffers(done, buffers);
    MarkedAccepts(done, buffers, frame);
    AddedCamera(buffers, frame, d);
    AddedCamera(marked, frame, d);
    MarkedParts(done, buffers, d);
    if buffers.Accepts(frame) {
      MarkedIndexAdd(done, buffers.index, frame);
      MarkedTrim(done, buffers.Camera(d).retainedKeys + [frame.bufferKey], buffers.index[frame.bufferKey := frame],
          buffers.size);
    }
  }

  lemma MarkedAddCamera(done: Done, buffers: BufferState, frame: SyncFrame, d: string)
    requires buffers.Accepts(frame) ==> frame.bufferKey !in done
    ensures MarkedBuffers(done, buffers).AddFrame(frame).Camera(d)
            == MarkedCamera(done, buffers.AddFrame(frame).Camera(d))
  {
    MarkedAccepts(done, buffers, frame);
    AddedCamera(buffers, frame, d);
    AddedCamera(MarkedBuffers(done, buffers), frame, d);
    MarkedCameraOf(done, buffers, d);
    if buffers.Accepts(frame) && d == frame.deviceId {
      MarkedAddIndex(done, buffers, frame);
      hide BufferState.AddFrame, BufferState.Camera, CameraState.Append, MarkedSeq, Trim;
      MarkedCameraAppend(done, buffers.Camera(d), frame, buffers.size);
    }
  }

  lemma MarkedAdd(done: Done, buffers: BufferState, frame: SyncFrame)
    requires buffers.Accepts(frame) ==> frame.bufferKey !in done
    ensures MarkedBuffers(done, buffers).AddFrame(frame) == MarkedBuffers(done, buffers.AddFrame(frame))
  {
    var a, b := MarkedBuffers(done, buffers).AddFrame(frame), MarkedBuffers(done, buffers.AddFrame(frame));
    MarkedAccepts(done, buffers, frame);
    MarkedCameraOf(done, buffers, frame.deviceId);
    assert MarkedBuffers(done, buffers).cameras.Keys == buffers.cameras.Keys;
    AddedRest(MarkedBuffers(done, buffers), buffers, frame);
    MarkedAddIndex(done, buffers, frame);
    hide BufferState.AddFrame, MarkedSeq;
    forall d | d in a.cameras ensures a.cameras[d] == b.cameras[d] {
      MarkedAddCamera(done, buffers, frame, d);
      MarkedCameraOf(done, buffers.AddFrame(frame), d);
    }
    SameBuffers(a, b);
  }

  lemma MarkedKeepCamera(done: Done, camera: CameraState, cutoffMs: int)
    ensures MarkedCamera(done, camera).KeepFrom(cutoffMs) == MarkedCamera(done, camera.KeepFrom(cutoffMs))
  {
    MarkedNotBefore(done, camera.frames, cutoffMs);
  }

  lemma MarkedKeepFrom(done: Done, buffers: BufferState, cameras: seq<string>, cutoffMs: int)
    ensures MarkedBuffers(done, buffers).KeepFrom(cameras, cutoffMs)
            == MarkedBuffers(done, buffers.KeepFrom(cameras, cutoffMs))
  {
    var a := MarkedBuffers(done, buffers).KeepFrom(cameras, cutoffMs);
    var b := MarkedBuffers(done, buffers.KeepFrom(cameras, cutoffMs));
    forall d | d in a.cameras ensures a.cameras[d] == b.cameras[d] {
      hide CameraState.KeepFrom, MarkedCamera;
      MarkedKeepCamera(done, buffers.cameras[d], cutoffMs);
    }
    SameBuffers(a, b);
  }

  lemma MarkedConsume(done: Done, buffers: BufferState, selected: Selection)
    ensures MarkedBuffers(done, buffers).ConsumeThrough(MarkedSelection(done, selected))
            == MarkedBuffers(done, buffers.ConsumeThrough(selected))
  {
    var a := MarkedBuffers(done, buffers).ConsumeThrough(MarkedSelection(done, selected));
    var b := MarkedBuffers(done, buffers.ConsumeThrough(selected));
    forall d | d in a.cameras ensures a.cameras[d] == b.cameras[d] {
      hide CameraState.KeepFrom, MarkedCamera;
      if d in selected {
        assert MarkedSelection(done, selected)[d].timestampMs == selected[d].timestampMs;
        MarkedKeepCamera(done, buffers.cameras[d], selected[d].timestampMs + 1);
      }
    }
    SameBuffers(a, b);
  }

  lemma {:induction false} MarkedTotals(done: Done, buffers: BufferState, cameras: seq<string>)
    ensures MarkedBuffers(done, buffers).FrameTotal(cameras) == buffers.FrameTotal(cameras)
  {
    if cameras != [] {
      MarkedTotals(done, buffers, cameras[1..]);
      MarkedCameraOf(done, buffers, cameras[0]);
    }
  }

  lemma {:induction false} MarkedSupersededTotal(
      done: Done, buffers: BufferState, cameras: seq<string>, selected: Selection)
    requires forall d | d in cameras :: d in selected
    ensures MarkedBuffers(done, buffers).SupersededTotal(cameras, MarkedSelection(done, selected))
            == buffers.SupersededTotal(cameras, selected)
  {
    if cameras != [] {
      MarkedSupersededTotal(done, buffers, cameras[1..], selected);
      MarkedCameraOf(done, buffers, cameras[0]);
      hide MarkedSeq, MarkedBuffers;
      MarkedSuperseded(done, buffers.Frames(cameras[0]), selected[cameras[0]]);
    }
  }

  lemma MarkedOffer(done: Done, buffers: BufferState, cameras: seq<string>)
    ensures Offer(MarkedBuffers(done, buffers), cameras) == MarkedStock(done, Offer(buffers, cameras))
  {
    var a, b := Offer(MarkedBuffers(done, buffers), cameras), MarkedStock(done, Offer(buffers, cameras));
    assert a.Keys == b.Keys;
    forall d | d in a ensures a[d] == b[d] {
      MarkedCameraOf(done, buffers, d);
      hide MarkedSeq, SortFrames, MarkedBuffers;
      MarkedSort(done, buffers.Frames(d));
    }
  }

  // ----- the matcher -----

  lemma MarkedBest(config: Config, done: Done, state: SyncState)
    requires config.cameras != []
    ensures Best(config, MarkedState(done, state)) == MarkedOption(done, Best(config, state))
  {
    MarkedOffer(done, state.buffers, config.cameras);
    hide Offer, MarkedStock, Candidate;
    MarkedCandidate(done, Offer(state.buffers, config.cameras), config.windowMs);
  }

  lemma MarkedFrameSet(
      done: Done, m: MatcherState, identity: CaptureIdentity, frames: Selection, windowMs: int, nowMs: int)
    requires frames != map[]
    ensures MarkedSelection(done, frames) != map[]
    ensures FrameSetOf(MarkedMatcher(done, m), identity, MarkedSelection(done, frames), windowMs, nowMs)
            == MarkedSet(done, FrameSetOf(m, identity, frames, windowMs, nowMs))
  {
    MarkedManifest(done, identity, frames, windowMs);
    MarkedSpan(done, frames);
    hide ManifestOf, Span, Latest, MarkedSelection, SetArchiveState, SetArchiveErrors;
  }

  lemma MarkedForIdentity(done: Done, m: MatcherState, identity: CaptureIdentity, freshRunId: string)
    ensures ForIdentity(MarkedMatcher(done, m), identity, freshRunId)
            == MarkedMatcher(done, ForIdentity(m, identity, freshRunId))
  {
    hide MarkedSets;
    assert Rotates(MarkedMatcher(done, m), identity) == Rotates(m, identity);
  }

  lemma MarkedRecent(done: Done, recent: seq<FrameSet>, emitted: FrameSet, limit: nat)
    ensures Bounded(MarkedSets(done, recent) + [MarkedSet(done, emitted)], limit)
            == MarkedSets(done, Bounded(recent + [emitted], limit))
  {
    hide MarkedSet;
    assert MarkedSets(done, recent) + [MarkedSet(done, emitted)] == MarkedSets(done, recent + [emitted]);
    var all := recent + [emitted];
    if |all| > limit {
      assert MarkedSets(done, all)[|all| - limit..] == MarkedSets(done, all[|all| - limit..]);
    }
  }

  lemma MarkedAfterEmitting(done: Done, m: MatcherState, emitted: FrameSet, limit: nat, superseded: nat)
    ensures AfterEmitting(MarkedMatcher(done, m), MarkedSet(done, emitted), limit, superseded)
            == MarkedMatcher(done, AfterEmitting(m, emitted, limit, superseded))
  {
    hide MarkedSets, Bounded;
    MarkedRecent(done, m.recent, emitted, limit);
  }

  lemma MarkedEmit(
      config: Config, done: Done, state: SyncState, frames: Selection, identity: CaptureIdentity, input: Input)
    requires frames != map[] && forall d :: d in config.cameras <==> d in frames
    ensures MarkedSelection(done, frames) != map[]
    ensures forall d :: d in config.cameras <==> d in MarkedSelection(done, frames)
    ensures Emit(config, MarkedState(done, state), MarkedSelection(done, frames), identity, input)
            == MarkedOutcome(done, Emit(config, state, frames, identity, input))
  {
    var m := ForIdentity(state.matcher, identity, input.freshRunId);
    MarkedForIdentity(done, state.matcher, identity, input.freshRunId);
    MarkedFrameSet(done, m, identity, frames, config.windowMs, input.nowMs);
    MarkedConsume(done, state.buffers, frames);
    MarkedSupersededTotal(done, state.buffers, config.cameras, frames);
    var emitted := FrameSetOf(m, identity, frames, config.windowMs, input.nowMs);
    MarkedAfterEmitting(done, m, emitted, config.recentLimit, state.buffers.SupersededTotal(config.cameras, frames));
    hide ForIdentity, FrameSetOf, AfterEmitting, MarkedBuffers, MarkedMatcher, MarkedSelection, MarkedSet;
    hide BufferState.ConsumeThrough, BufferState.SupersededTotal;
  }

  lemma MarkedAttempt(config: Config, done: Done, state: SyncState, input: Input)
    requires config.cameras != []
    ensures Attempt(config, MarkedState(done, state), input) == MarkedOutcome(done, Attempt(config, state, input))
  {
    MarkedBest(config, done, state);
    var best := Best(config, state);
    if best.None? {
      hide Emit, Best, MarkedBuffers, MarkedSets;
      AttemptMisses(config, state, input);
      AttemptMisses(config, MarkedState(done, state), input);
    } else {
      MarkedMembers(done, config.cameras, best.value);
      MarkedResolve(done, Members(config.cameras, best.value));
      MarkedAttemptFound(config, done, state, input, best.value);
    }
  }

  lemma MarkedAttemptFound(config: Config, done: Done, state: SyncState, input: Input, frames: Selection)
    requires config.cameras != [] && Best(config, state) == Some(frames)
    requires Best(config, MarkedState(done, state)) == Some(MarkedSelection(done, frames))
    requires Members(config.cameras, MarkedSelection(done, frames)) != []
    requires Resolve(Members(config.cameras, MarkedSelection(done, frames))) == Resolve(Members(config.cameras, frames))
    ensures Attempt(config, MarkedState(done, state), input) == MarkedOutcome(done, Attempt(config, state, input))
  {
    hide Emit, Best, Resolve, MarkedBuffers, MarkedSets, MarkedSelection, Attempt, MarkedMatcher, MarkedSet;
    match Resolve(Members(config.cameras, frames))
    case ScopeConflict(_) =>
      AttemptMisses(config, state, input);
      AttemptMisses(config, MarkedState(done, state), input);
      MarkedMissed(done, state);
    case Resolved(identity) =>
      AttemptEmits(config, state, input, frames, identity);
      AttemptEmits(config, MarkedState(done, state), input, MarkedSelection(done, frames), identity);
      MarkedEmit(config, done, state, frames, identity, input);
  }

  lemma MarkedMissed(done: Done, state: SyncState)
    ensures Missed(MarkedState(done, state)) == MarkedState(done, Missed(state))
  {
  }

  lemma MarkedWithoutStale(config: Config, done: Done, buffers: BufferState)
    requires config.cameras != []
    ensures WithoutStale(config, MarkedBuffers(done, buffers)) == MarkedBuffers(done, WithoutStale(config, buffers))
  {
    hide MarkedBuffers, BufferState.KeepFrom, BufferState.Camera, AllSeen, Watermark;
    forall d | d in config.cameras
      ensures MarkedBuffers(done, buffers).Camera(d).lastTimestampMs == buffers.Camera(d).lastTimestampMs
    {
      MarkedParts(done, buffers, d);
    }
    WatermarkSame(MarkedBuffers(done, buffers), buffers, config.cameras);
    if AllSeen(buffers, config.cameras) {
      MarkedKeepFrom(done, buffers, config.cameras, Watermark(buffers, config.cameras) - config.windowMs);
    }
  }

  lemma MarkedPrune(config: Config, done: Done, pruning: bool, state: SyncState)
    requires config.cameras != []
    ensures Prune(config, pruning, MarkedState(done, state)) == MarkedState(done, Prune(config, pruning, state))
  {
    MarkedWithoutStale(config, done, state.buffers);
    MarkedTotals(done, state.buffers, config.cameras);
    MarkedTotals(done, PrunedBuffers(config, pruning, state.buffers), config.cameras);
    hide WithoutStale, MarkedBuffers, BufferState.FrameTotal, MarkedSets;
  }

  lemma StepOnAttempt(config: Config, pruning: bool, state: SyncState, input: Input)
    requires state.buffers.Accepts(Stored(input.frame)) && config.cameras != []
    requires input.frame.deviceId in config.cameras
    ensures var attempt := Attempt(config, state.(buffers := state.buffers.AddFrame(Stored(input.frame))), input);
            HandleFrame(config, pruning, state, input)
            == Outcome(Prune(config, pruning, attempt.state), attempt.emitted)
  {
    hide Attempt, Prune, BufferState.AddFrame, BufferState.Accepts;
  }

  lemma StepWithout(config: Config, pruning: bool, state: SyncState, input: Input)
    requires || !state.buffers.Accepts(Stored(input.frame))
             || config.cameras == [] || input.frame.deviceId !in config.cameras
    ensures var after := HandleFrame(config, pruning, state, input);
            && after.emitted == None && after.state.buffers == state.buffers.AddFrame(Stored(input.frame))
            && after.state.matcher
               == if !state.buffers.Accepts(Stored(input.frame)) then state.matcher
                  else if config.cameras == [] then Missed(state).matcher
                  else state.matcher.(ignoredCount := state.matcher.ignoredCount + 1)
  {
    hide Attempt, Prune, BufferState.AddFrame, BufferState.Accepts;
  }

  lemma MarkedCounts(done: Done, state: SyncState)
    ensures MarkedMatcher(done, Missed(state).matcher) == Missed(MarkedState(done, state)).matcher
    ensures MarkedMatcher(done, state.matcher.(ignoredCount := state.matcher.ignoredCount + 1))
            == MarkedMatcher(done, state.matcher).(ignoredCount := state.matcher.ignoredCount + 1)
  {
    hide MarkedSets, MarkedBuffers;
  }

  /** A step commutes with archive results, unless it stores a frame already completed. */
  lemma {:induction false} MarkedStep(config: Config, done: Done, pruning: bool, state: SyncState, input: Input)
    requires state.buffers.Accepts(Stored(input.frame)) ==> Stored(input.frame).bufferKey !in done
    ensures HandleFrame(config, pruning, MarkedState(done, state), input)
            == MarkedOutcome(done, HandleFrame(config, pruning, state, input))
  {
    var stored := Stored(input.frame);
    MarkedAccepts(done, state.buffers, stored);
    MarkedAdd(done, state.buffers, stored);
    hide MarkedBuffers, MarkedMatcher, MarkedSet, Attempt, Prune, BufferState.AddFrame, BufferState.Accepts;
    hide HandleFrame, Missed;
    if state.buffers.Accepts(stored) && config.cameras != [] && input.frame.deviceId in config.cameras {
      var added := state.(buffers := state.buffers.AddFrame(stored));
      StepOnAttempt(config, pruning, state, input);
      StepOnAttempt(config, pruning, MarkedState(done, state), input);
      MarkedAttempt(config, done, added, input);
      MarkedPrune(config, done, pruning, Attempt(config, added, input).state);
    } else {
      StepWithout(config, pruning, state, input);
      StepWithout(config, pruning, MarkedState(done, state), input);
      MarkedCounts(done, state);
    }
  }
}

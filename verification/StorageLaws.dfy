/** Which frames a run stores, which keys it knows and what it counts, said of the stored
    frames alone. */
module StorageLaws {
  import opened Wrappers
  import opened Sequences
  import opened SyncModels
  import opened BufferSpec
  import opened SyncSpec
  import opened PruningInvisible
  import opened IndexAgreement
  import opened Progress
  import opened SetLaws

  /** The frames of one camera. */
  function FramesOf(frames: seq<SyncFrame>, d: string): seq<SyncFrame>
  {
    if frames == [] then []
    else (if frames[0].deviceId == d then [frames[0]] else []) + FramesOf(frames[1..], d)
  }

  function KeysOf(frames: seq<SyncFrame>): (keys: seq<string>)
    ensures |keys| == |frames|
  {
    seq(|frames|, i requires 0 <= i < |frames| => frames[i].bufferKey)
  }

  /** The newest keys, as many as are retained. */
  function NewestKeys(keys: seq<string>, limit: nat): seq<string>
  {
    if |keys| <= limit then keys else keys[|keys| - limit..]
  }

  lemma FramesOfFirst(frames: seq<SyncFrame>, d: string)
    requires frames != []
    ensures FramesOf(frames, d) == (if frames[0].deviceId == d then [frames[0]] else []) + FramesOf(frames[1..], d)
  {
  }

  lemma {:induction false} FramesOfMore(frames: seq<SyncFrame>, next: SyncFrame, d: string)
    ensures FramesOf(frames + [next], d) == FramesOf(frames, d) + (if next.deviceId == d then [next] else [])
  {
    if frames == [] {
      assert [next][1..] == [] && [] + [next] == [next];
    } else {
      assert (frames + [next])[0] == frames[0] && (frames + [next])[1..] == frames[1..] + [next];
      FramesOfMore(frames[1..], next, d);
      FramesOfFirst(frames, d);
      FramesOfFirst(frames + [next], d);
      hide FramesOf;
      Associative(if frames[0].deviceId == d then [frames[0]] else [], FramesOf(frames[1..], d),
                  if next.deviceId == d then [next] else []);
    }
  }

  /** The camera counts its stored frames and retains the newest of their keys. */
  predicate CameraStores(camera: CameraState, frames: seq<SyncFrame>, size: nat)
  {
    camera.receivedCount == |frames| && camera.retainedKeys == NewestKeys(KeysOf(frames), size)
  }

  ghost predicate Stores(buffers: BufferState, frames: seq<SyncFrame>)
  {
    && buffers.receivedCount == |frames|
    && forall d :: CameraStores(buffers.Camera(d), FramesOf(frames, d), buffers.size)
  }

  lemma TrimmedKeys(keys: seq<string>, key: string, index: map<string, SyncFrame>, size: nat)
    ensures Trim(NewestKeys(keys, size) + [key], index, size).0 == NewestKeys(keys + [key], size)
  {
    TrimIs(NewestKeys(keys, size) + [key], index, size);
    hide Trim;
    if |keys| > size {
      assert keys[|keys| - size..] + [key] == (keys + [key])[|keys| - size..];
    }
  }

  lemma KeysOfMore(frames: seq<SyncFrame>, next: SyncFrame)
    ensures KeysOf(frames + [next]) == KeysOf(frames) + [next.bufferKey]
  {
  }

  lemma AppendCounts(camera: CameraState, frame: SyncFrame, size: nat)
    ensures camera.Append(frame, size).receivedCount == camera.receivedCount + 1
  {
  }

  lemma AddStores(buffers: BufferState, frames: seq<SyncFrame>, frame: SyncFrame, d: string)
    requires CameraStores(buffers.Camera(d), FramesOf(frames, d), buffers.size)
    ensures CameraStores(
              buffers.AddFrame(frame).Camera(d),
              FramesOf(if buffers.Accepts(frame) then frames + [frame] else frames, d), buffers.size)
  {
    AddedCamera(buffers, frame, d);
    FramesOfMore(frames, frame, d);
    AppendCounts(buffers.Camera(d), frame, buffers.size);
    EmptyRight(FramesOf(frames, d));
    KeysOfMore(FramesOf(frames, d), frame);
    TrimmedKeys(KeysOf(FramesOf(frames, d)), frame.bufferKey, buffers.index[frame.bufferKey := frame], buffers.size);
    hide BufferState.AddFrame, CameraState.Append, Trim, FramesOf, KeysOf, NewestKeys;
  }

  lemma ThinnedCounts(before: CameraState, after: CameraState)
    requires Thinned(before, after)
    ensures after.receivedCount == before.receivedCount && after.sequenceGapCount == before.sequenceGapCount
  {
  }

  /** One step counts its frame once: as a duplicate if the key is indexed, else as late if it is
      out of order, and else as received. */
  lemma {:induction false} StepCountsFrame(config: Config, pruning: bool, state: SyncState, input: Input)
    ensures var frame, before := Stored(input.frame), state.buffers;
            var after := HandleFrame(config, pruning, state, input).state.buffers;
            var known := frame.bufferKey in before.index;
            var late := before.Camera(frame.deviceId).IsOutOfOrder(frame);
            && after.duplicateCount == before.duplicateCount + (if known then 1 else 0)
            && after.outOfOrderCount == before.outOfOrderCount + (if !known && late then 1 else 0)
            && after.receivedCount == before.receivedCount + (if !known && !late then 1 else 0)
            && after.size == before.size
  {
    hide Attempt, Best, CameraState.Append, CameraState.IsOutOfOrder, Trim, BuildBufferKey, PrunedBuffers;
    var added := state.(buffers := state.buffers.AddFrame(Stored(input.frame)));
    if config.cameras != [] {
      AttemptBuffers(config, added, input);
      PruneCounts(config, pruning, Attempt(config, added, input).state.buffers);
    }
  }

  lemma PruneCounts(config: Config, pruning: bool, buffers: BufferState)
    requires config.cameras != []
    ensures var after := PrunedBuffers(config, pruning, buffers);
            after.(cameras := map[]) == buffers.(cameras := map[])
  {
  }

  lemma StepStores(config: Config, pruning: bool, state: SyncState, input: Input, frames: seq<SyncFrame>)
    requires Stores(state.buffers, frames)
    ensures var accepts := state.buffers.Accepts(Stored(input.frame));
            Stores(HandleFrame(config, pruning, state, input).state.buffers,
                   if accepts then frames + [Stored(input.frame)] else frames)
  {
    StepCountsFrame(config, pruning, state, input);
    hide HandleFrame, CameraStores, BufferState.Camera, BufferState.AddFrame, CameraState.IsOutOfOrder, Stored,
      FramesOf, Thinned;
    var frame := Stored(input.frame);
    var added, after := state.buffers.AddFrame(frame), HandleFrame(config, pruning, state, input).state.buffers;
    var more := if state.buffers.Accepts(frame) then frames + [frame] else frames;
    forall d ensures CameraStores(after.Camera(d), FramesOf(more, d), after.size) {
      AddStores(state.buffers, frames, frame, d);
      StepThins(config, pruning, state, input, d);
      ThinnedStores(added.Camera(d), after.Camera(d), FramesOf(more, d), after.size);
    }
  }

  lemma ThinnedStores(before: CameraState, after: CameraState, frames: seq<SyncFrame>, size: nat)
    requires CameraStores(before, frames, size) && Thinned(before, after)
    ensures CameraStores(after, frames, size)
  {
    ThinnedCounts(before, after);
    ThinnedKeepsKeys(before, after);
  }

  lemma {:induction false} RunStores(
      config: Config, pruning: bool, state: SyncState, inputs: seq<Input>, frames: seq<SyncFrame>)
    requires Stores(state.buffers, frames)
    ensures var before, after := state.buffers, Run(config, pruning, state, inputs).state.buffers;
            && Stores(after, frames + StoredFrames(config, pruning, state, inputs)) && after.size == before.size
            && after.receivedCount + after.duplicateCount + after.outOfOrderCount
               == before.receivedCount + before.duplicateCount + before.outOfOrderCount + |inputs|
    decreases |inputs|
  {
    if inputs == [] {
      EmptyRight(frames);
    } else {
      var stored := Stored(inputs[0].frame);
      StepCountsFrame(config, pruning, state, inputs[0]);
      hide HandleFrame, Stores, Stored, BufferState.Accepts;
      var first: seq<SyncFrame> := if state.buffers.Accepts(stored) then [stored] else [];
      var next := HandleFrame(config, pruning, state, inputs[0]).state;
      StepStores(config, pruning, state, inputs[0], frames);
      EmptyRight(frames);
      RunStores(config, pruning, next, inputs[1..], frames + first);
      Associative(frames, first, StoredFrames(config, pruning, next, inputs[1..]));
    }
  }

  lemma InitiallyStores(size: nat, runId: string)
    ensures Stores(Initial(size, runId).buffers, []) && Initial(size, runId).buffers.size == size
  {
  }

  /** In every run each frame is counted exactly once, the received ones are the stored ones, and
      every camera counts its own. */
  lemma {:induction false} FramesAreCounted(
      config: Config, pruning: bool, size: nat, runId: string, inputs: seq<Input>, d: string)
    ensures var buffers := Run(config, pruning, Initial(size, runId), inputs).state.buffers;
            var stored := StoredFrames(config, pruning, Initial(size, runId), inputs);
            && buffers.receivedCount + buffers.duplicateCount + buffers.outOfOrderCount == |inputs|
            && buffers.receivedCount == |stored|
            && buffers.Camera(d).receivedCount == |FramesOf(stored, d)|
  {
    InitiallyStores(size, runId);
    hide Run, StoredFrames, FramesOf, BufferState.Camera;
    RunStores(config, pruning, Initial(size, runId), inputs, []);
    EmptyLeft(StoredFrames(config, pruning, Initial(size, runId), inputs));
  }

  lemma {:induction false} RunAgrees(config: Config, pruning: bool, state: SyncState, inputs: seq<Input>)
    requires Agrees(state.buffers)
    ensures Agrees(Run(config, pruning, state, inputs).state.buffers)
    decreases |inputs|
  {
    if inputs != [] {
      hide Agrees, HandleFrame, BufferState.AddFrame, Stored;
      var next := HandleFrame(config, pruning, state, inputs[0]).state;
      AgreesAfterAdd(state.buffers, Stored(inputs[0].frame));
      StepKeepsIndex(config, pruning, state, inputs[0]);
      SameKeysAgree(state.buffers.AddFrame(Stored(inputs[0].frame)), next.buffers);
      RunAgrees(config, pruning, next, inputs[1..]);
    }
  }

  /** The key is among the newest stored from the camera, as many as a buffer holds. */
  predicate Remembered(stored: seq<SyncFrame>, d: string, key: string, size: nat)
  {
    key in NewestKeys(KeysOf(FramesOf(stored, d)), size)
  }

  lemma RetainedIsRemembered(buffers: BufferState, stored: seq<SyncFrame>, d: string, key: string)
    requires Stores(buffers, stored)
    ensures key in buffers.Camera(d).retainedKeys <==> Remembered(stored, d, key, buffers.size)
  {
    hide FramesOf, KeysOf, NewestKeys, BufferState.Camera;
    assert CameraStores(buffers.Camera(d), FramesOf(stored, d), buffers.size);
  }

  lemma IndexedIsRetained(buffers: BufferState, d: string, key: string)
    requires Agrees(buffers)
    ensures key in buffers.index ==> key in buffers.Camera(buffers.index[key].deviceId).retainedKeys
    ensures key in buffers.Camera(d).retainedKeys ==> key in buffers.index
  {
    hide BufferState.Camera;
    assert CameraIndexed(buffers.Camera(d), d, buffers.index, buffers.size);
  }

  lemma IndexedIsRemembered(buffers: BufferState, stored: seq<SyncFrame>, key: string)
    requires Agrees(buffers) && Stores(buffers, stored)
    ensures key in buffers.index <==> exists d :: Remembered(stored, d, key, buffers.size)
  {
    hide *;
    if key in buffers.index {
      IndexedIsRetained(buffers, "", key);
      RetainedIsRemembered(buffers, stored, buffers.index[key].deviceId, key);
    }
    if d :| Remembered(stored, d, key, buffers.size) {
      RetainedIsRemembered(buffers, stored, d, key);
      IndexedIsRetained(buffers, d, key);
    }
  }

  /** A key is known exactly if it is remembered of some camera. */
  lemma {:induction false} KnownExactly(
      config: Config, pruning: bool, size: nat, runId: string, inputs: seq<Input>, key: string)
    ensures var buffers := Run(config, pruning, Initial(size, runId), inputs).state.buffers;
            var stored := StoredFrames(config, pruning, Initial(size, runId), inputs);
            key in buffers.index <==> exists d :: Remembered(stored, d, key, size)
  {
    assert Agrees(Initial(size, runId).buffers);
    InitiallyStores(size, runId);
    hide *;
    RunAgrees(config, pruning, Initial(size, runId), inputs);
    RunStores(config, pruning, Initial(size, runId), inputs, []);
    EmptyLeft(StoredFrames(config, pruning, Initial(size, runId), inputs));
    IndexedIsRemembered(Run(config, pruning, Initial(size, runId), inputs).state.buffers,
                        StoredFrames(config, pruning, Initial(size, runId), inputs), key);
  }

  // ----- gaps -----

  /** The frames that carry a sequence. */
  function Numbered(frames: seq<SyncFrame>): (numbered: seq<SyncFrame>)
    ensures forall f | f in numbered :: f.sequence.Some?
  {
    if frames == [] then []
    else
      var before, last := Numbered(frames[..|frames| - 1]), frames[|frames| - 1];
      if last.sequence.Some? then before + [last] else before
  }

  /** The sequences from the first to the last numbered frame that are missing. */
  function Missing(frames: seq<SyncFrame>): int
  {
    var numbered := Numbered(frames);
    if numbered == [] then 0
    else numbered[|numbered| - 1].sequence.value - numbered[0].sequence.value + 1 - |numbered|
  }

  predicate CountsGaps(camera: CameraState, frames: seq<SyncFrame>, source: SourceIdentity)
  {
    var numbered := Numbered(frames);
    && camera.sequenceGapCount == Missing(frames)
    && camera.lastSequence == (if numbered == [] then None else numbered[|numbered| - 1].sequence)
    && (camera.sourceIdentity == Some(source) || (camera.sourceIdentity.None? && frames == []))
  }

  lemma AppendGaps(camera: CameraState, frames: seq<SyncFrame>, source: SourceIdentity, frame: SyncFrame, size: nat)
    requires CountsGaps(camera, frames, source) && frame.source == source && frame.mode == V2
    requires !camera.IsOutOfOrder(frame)
    ensures CountsGaps(camera.Append(frame, size), frames + [frame], source)
  {
    AppendedGaps(camera, source, frame, size);
    NumberedMore(frames, frame);
    hide CameraState.Append, CameraState.IsOutOfOrder, Numbered;
  }

  lemma NumberedMore(frames: seq<SyncFrame>, frame: SyncFrame)
    ensures Numbered(frames + [frame])
            == if frame.sequence.Some? then Numbered(frames) + [frame] else Numbered(frames)
  {
    var more := frames + [frame];
    assert more[..|more| - 1] == frames && more[|more| - 1] == frame;
  }

  lemma AppendedGaps(camera: CameraState, source: SourceIdentity, frame: SyncFrame, size: nat)
    requires camera.sourceIdentity == Some(source) || (camera.sourceIdentity.None? && camera.lastSequence.None?)
    requires frame.source == source && frame.mode == V2 && !camera.IsOutOfOrder(frame)
    ensures var after, both := camera.Append(frame, size), frame.sequence.Some? && camera.lastSequence.Some?;
            && after.sourceIdentity == Some(source)
            && after.lastSequence == (if frame.sequence.Some? then frame.sequence else camera.lastSequence)
            && after.sequenceGapCount == camera.sequenceGapCount
               + (if both then frame.sequence.value - camera.lastSequence.value - 1 else 0)
  {
    hide Bounded;
  }

  lemma GapsIgnore(before: CameraState, after: CameraState, frames: seq<SyncFrame>, source: SourceIdentity)
    requires CountsGaps(before, frames, source)
    requires after.sequenceGapCount == before.sequenceGapCount && after.lastSequence == before.lastSequence
    requires after.sourceIdentity == before.sourceIdentity
    ensures CountsGaps(after, frames, source)
  {
  }

  lemma StepGaps(
      config: Config, pruning: bool, state: SyncState, input: Input, d: string, source: SourceIdentity,
      frames: seq<SyncFrame>)
    requires FromSource(input.frame, d, source) && CountsGaps(state.buffers.Camera(d), FramesOf(frames, d), source)
    ensures var accepts := state.buffers.Accepts(Stored(input.frame));
            CountsGaps(HandleFrame(config, pruning, state, input).state.buffers.Camera(d),
                       FramesOf(if accepts then frames + [Stored(input.frame)] else frames, d), source)
  {
    var frame := Stored(input.frame);
    assert frame.mode == input.frame.mode && frame.source == input.frame.source;
    assert frame.deviceId == input.frame.deviceId;
    var camera, added := state.buffers.Camera(d), state.buffers.AddFrame(frame).Camera(d);
    AddedCamera(state.buffers, frame, d);
    FramesOfMore(frames, frame, d);
    EmptyRight(FramesOf(frames, d));
    StepThins(config, pruning, state, input, d);
    hide HandleFrame, CountsGaps, CameraState.Append, BufferState.AddFrame, FramesOf, Stored, Thinned, Trim;
    if state.buffers.Accepts(frame) && frame.deviceId == d {
      AppendGaps(camera, FramesOf(frames, d), source, frame, state.buffers.size);
      GapsIgnore(camera.Append(frame, state.buffers.size), added, FramesOf(frames + [frame], d), source);
    }
    var after := HandleFrame(config, pruning, state, input).state.buffers.Camera(d);
    ThinnedCounts(added, after);
    ThinnedLatest(added, after);
    GapsIgnore(added, after, FramesOf(if state.buffers.Accepts(frame) then frames + [frame] else frames, d), source);
  }

  lemma StoredFirst(config: Config, pruning: bool, state: SyncState, inputs: seq<Input>)
    requires inputs != []
    ensures var stored, next := Stored(inputs[0].frame), HandleFrame(config, pruning, state, inputs[0]).state;
            && Run(config, pruning, state, inputs).state == Run(config, pruning, next, inputs[1..]).state
            && StoredFrames(config, pruning, state, inputs)
               == (if state.buffers.Accepts(stored) then [stored] else [])
                  + StoredFrames(config, pruning, next, inputs[1..])
  {
    hide HandleFrame, Stored, BufferState.Accepts;
  }

  lemma {:induction false} RunGaps(
      config: Config, pruning: bool, state: SyncState, inputs: seq<Input>, d: string, source: SourceIdentity,
      frames: seq<SyncFrame>)
    requires AllFromSource(inputs, d, source) && CountsGaps(state.buffers.Camera(d), FramesOf(frames, d), source)
    ensures CountsGaps(Run(config, pruning, state, inputs).state.buffers.Camera(d),
                       FramesOf(frames + StoredFrames(config, pruning, state, inputs), d), source)
    decreases |inputs|
  {
    if inputs == [] {
      EmptyRight(frames);
    } else {
      assert FromSource(inputs[0].frame, d, source) && AllFromSource(inputs[1..], d, source);
      StoredFirst(config, pruning, state, inputs);
      hide *;
      var stored := Stored(inputs[0].frame);
      var first: seq<SyncFrame> := if state.buffers.Accepts(stored) then [stored] else [];
      var next := HandleFrame(config, pruning, state, inputs[0]).state;
      StepGaps(config, pruning, state, inputs[0], d, source, frames);
      EmptyRight(frames);
      RunGaps(config, pruning, next, inputs[1..], d, source, frames + first);
      Associative(frames, first, StoredFrames(config, pruning, next, inputs[1..]));
    }
  }

  /** While a camera stays on one source, its gap count is the number of sequences missing
      between its first and its last stored frame. */
  lemma {:induction false} GapsAreMissing(
      config: Config, pruning: bool, size: nat, runId: string, inputs: seq<Input>, d: string, source: SourceIdentity)
    requires AllFromSource(inputs, d, source)
    ensures var stored := StoredFrames(config, pruning, Initial(size, runId), inputs);
            Run(config, pruning, Initial(size, runId), inputs).state.buffers.Camera(d).sequenceGapCount
            == Missing(FramesOf(stored, d))
  {
    assert CountsGaps(Initial(size, runId).buffers.Camera(d), FramesOf([], d), source);
    hide Run, StoredFrames, FramesOf, Missing, BufferState.Camera, AllFromSource;
    RunGaps(config, pruning, Initial(size, runId), inputs, d, source, []);
    EmptyLeft(StoredFrames(config, pruning, Initial(size, runId), inputs));
  }
}

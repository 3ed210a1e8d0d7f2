/** In runs of V2 frames every buffered frame is indexed, and the keys of a camera's buffer
    are the newest of the keys it retains. Sources may change; frames may come late. */
module BufferedFrames {
  import opened Wrappers
  import opened Sequences
  import opened SyncModels
  import opened BufferSpec
  import opened SyncSpec
  import opened ArchiveSpec
  import opened PruningInvisible
  import opened IndexAgreement

  /** The frames' keys are the last of the given keys. */
  predicate Ends(frames: seq<SyncFrame>, keys: seq<string>)
  {
    && |frames| <= |keys|
    && forall i | 0 <= i < |frames| :: frames[i].bufferKey == keys[|keys| - |frames| + i]
  }

  predicate Indexed(frames: seq<SyncFrame>, index: map<string, SyncFrame>)
  {
    forall i | 0 <= i < |frames| :: frames[i].bufferKey in index && index[frames[i].bufferKey] == frames[i]
  }

  ghost predicate CameraBuffered(camera: CameraState, index: map<string, SyncFrame>, size: nat)
  {
    Steady(camera, size) && Ends(camera.frames, camera.retainedKeys) && Indexed(camera.frames, index)
  }

  ghost predicate Buffered(buffers: BufferState)
  {
    buffers.size >= 1 && forall d :: CameraBuffered(buffers.Camera(d), buffers.index, buffers.size)
  }

  // ----- dropping older frames -----

  lemma SuffixBuffered(frames: seq<SyncFrame>, kept: seq<SyncFrame>, keys: seq<string>, index: map<string, SyncFrame>)
    requires Ends(frames, keys) && Indexed(frames, index)
    requires Suffix(kept, frames)
    ensures Ends(kept, keys) && Indexed(kept, index)
  {
  }

  lemma SteadyThinned(before: CameraState, after: CameraState, size: nat)
    requires Steady(before, size) && Thinned(before, after)
    ensures Steady(after, size)
    ensures Suffix(after.frames, before.frames)
  {
    if after != before {
      var t :| after == before.KeepFrom(t);
      NotBeforeIsSuffix(before.frames, t);
    }
  }

  lemma ThinnedBuffered(before: CameraState, after: CameraState, index: map<string, SyncFrame>, size: nat)
    requires CameraBuffered(before, index, size) && Thinned(before, after)
    ensures CameraBuffered(after, index, size)
  {
    SteadyThinned(before, after, size);
    ThinnedKeepsKeys(before, after);
    hide Steady, Thinned, Ends, Indexed, Suffix;
    SuffixBuffered(before.frames, after.frames, before.retainedKeys, index);
  }

  // ----- storing -----

  lemma SteadyAppendV2(camera: CameraState, frame: SyncFrame, size: nat)
    requires size >= 1 && Steady(camera, size) && frame.mode == V2 && !camera.IsOutOfOrder(frame)
    ensures Steady(camera.Append(frame, size), size)
  {
    if Some(frame.source) == camera.sourceIdentity {
      SteadyAppend(camera, frame, size);
    } else {
      FreshAppend(camera, frame, size);
      hide CameraState.Append;
      assert Ascending([frame]);
    }
  }

  lemma FreshAppend(camera: CameraState, frame: SyncFrame, size: nat)
    requires size >= 1 && Some(frame.source) != camera.sourceIdentity
    ensures camera.Append(frame, size).frames == [frame]
    ensures camera.Append(frame, size).lastTimestampMs == Some(frame.timestampMs)
  {
    EmptyLeft([frame]);
    assert camera.ForSource(frame.source).frames + [frame] == [frame];
  }

  lemma EndsWithNew(frames: seq<SyncFrame>, keys: seq<string>, frame: SyncFrame)
    requires Ends(frames, keys)
    ensures Ends(frames + [frame], keys + [frame.bufferKey])
  {
  }

  lemma EndsOfNewest(frames: seq<SyncFrame>, keys: seq<string>, newest: seq<SyncFrame>, kept: seq<string>)
    requires Ends(frames, keys) && |newest| <= |kept| && Suffix(newest, frames) && Suffix(kept, keys)
    ensures Ends(newest, kept)
  {
  }

  /** What stays buffered stays indexed, because its key stays retained. */
  lemma IndexedAfterTrim(
    frames: seq<SyncFrame>, keys: seq<string>, kept: seq<string>, before: map<string, SyncFrame>,
        after: map<string, SyncFrame>)
    requires Distinct(keys) && Trimmed(keys, kept, before, after)
    requires Ends(frames, kept) && Indexed(frames, before)
    ensures Indexed(frames, after)
  {
    DistinctParts(keys, |keys| - |kept|);
    forall i | 0 <= i < |frames| ensures frames[i].bufferKey in after && after[frames[i].bufferKey] == frames[i] {
      assert frames[i].bufferKey in kept;
    }
  }

  lemma IndexedWithNew(frames: seq<SyncFrame>, index: map<string, SyncFrame>, frame: SyncFrame)
    requires Indexed(frames, index) && frame.bufferKey !in index
    ensures Indexed(frames + [frame], index[frame.bufferKey := frame])
  {
  }

  /** What the camera holds after storing, told in terms of what it held. */
  lemma OwnAfterAdd(buffers: BufferState, frame: SyncFrame)
    requires buffers.Accepts(frame)
    ensures var camera, after := buffers.Camera(frame.deviceId), buffers.AddFrame(frame).Camera(frame.deviceId);
            var frames := camera.ForSource(frame.source).frames;
            && (frames == camera.frames || frames == [])
            && after.frames == Bounded(frames + [frame], buffers.size)
            && after == camera.Append(frame, buffers.size).(retainedKeys := after.retainedKeys)
  {
    AddedCamera(buffers, frame, frame.deviceId);
    hide BufferState.AddFrame, BufferState.Camera, Bounded, Trim;
  }

  lemma OwnBufferedAfterAdd(buffers: BufferState, frame: SyncFrame)
    requires Agrees(buffers) && Buffered(buffers) && buffers.Accepts(frame) && frame.mode == V2
    ensures var added := buffers.AddFrame(frame); CameraBuffered(added.Camera(frame.deviceId), added.index, added.size)
  {
    var e, size, added := frame.deviceId, buffers.size, buffers.AddFrame(frame);
    var camera, after := buffers.Camera(e), added.Camera(e);
    var started := camera.ForSource(frame.source).frames;
    OwnFacts(buffers, frame);
    TrimmedByStoring(buffers, frame);
    hide *;
    TrimmedSuffix(camera.retainedKeys + [frame.bufferKey], after.retainedKeys,
        buffers.index[frame.bufferKey := frame], added.index);
    EndsAfterAdd(started, camera.retainedKeys, frame, after.frames, after.retainedKeys, size);
    IndexedAfterAdd(started, frame, after.frames, camera.retainedKeys + [frame.bufferKey], after.retainedKeys,
                    buffers.index, added.index, size);
    IsBuffered(after, added.index, size);
  }

  lemma IsBuffered(camera: CameraState, index: map<string, SyncFrame>, size: nat)
    requires Steady(camera, size) && Ends(camera.frames, camera.retainedKeys) && Indexed(camera.frames, index)
    ensures CameraBuffered(camera, index, size)
  {
  }

  lemma StartedFacts(buffers: BufferState, frame: SyncFrame)
    requires Agrees(buffers) && Buffered(buffers) && buffers.Accepts(frame)
    ensures var camera := buffers.Camera(frame.deviceId);
            var started := camera.ForSource(frame.source).frames;
            && frame.bufferKey !in buffers.index
            && Ends(started, camera.retainedKeys) && Indexed(started, buffers.index)
            && Distinct(camera.retainedKeys + [frame.bufferKey])
  {
    var e := frame.deviceId;
    var camera := buffers.Camera(e);
    assert CameraBuffered(camera, buffers.index, buffers.size);
    assert CameraIndexed(camera, e, buffers.index, buffers.size);
    var started := camera.ForSource(frame.source).frames;
    assert started == camera.frames || started == [];
    hide *;
    KeysAfterAdd(camera.retainedKeys, camera.retainedKeys + [frame.bufferKey], frame, buffers.index, buffers.size);
    EndsAfterStart(camera.frames, started, camera.retainedKeys, buffers.index);
  }

  lemma OwnFacts(buffers: BufferState, frame: SyncFrame)
    requires Agrees(buffers) && Buffered(buffers) && buffers.Accepts(frame) && frame.mode == V2
    ensures var camera, after := buffers.Camera(frame.deviceId), buffers.AddFrame(frame).Camera(frame.deviceId);
            var started := camera.ForSource(frame.source).frames;
            && buffers.size >= 1 && buffers.AddFrame(frame).size == buffers.size && frame.bufferKey !in buffers.index
            && Ends(started, camera.retainedKeys) && Indexed(started, buffers.index)
            && Distinct(camera.retainedKeys + [frame.bufferKey])
            && after.frames == Bounded(started + [frame], buffers.size)
            && Steady(after, buffers.size)
  {
    var camera := buffers.Camera(frame.deviceId);
    assert CameraBuffered(camera, buffers.index, buffers.size);
    assert !camera.IsOutOfOrder(frame);
    AddedCamera(buffers, frame, frame.deviceId);
    StartedFacts(buffers, frame);
    hide *;
    OwnAfterAdd(buffers, frame);
    SteadyAppendV2(camera, frame, buffers.size);
    SteadyIgnoresKeys(camera.Append(frame, buffers.size),
        buffers.AddFrame(frame).Camera(frame.deviceId).retainedKeys, buffers.size);
  }

  lemma EndsAfterAdd(
    frames: seq<SyncFrame>, retained: seq<string>, frame: SyncFrame, newest: seq<SyncFrame>, kept: seq<string>,
        size: nat)
    requires size >= 1 && Ends(frames, retained) && newest == Bounded(frames + [frame], size)
    requires Suffix(kept, retained + [frame.bufferKey])
    requires |kept| == if |retained| + 1 > size then size else |retained| + 1
    ensures Ends(newest, kept)
  {
    hide *;
    EndsLength(frames, retained);
    EndsWithNew(frames, retained, frame);
    BoundedSizes(frames + [frame], newest, size);
    EndsOfNewest(frames + [frame], retained + [frame.bufferKey], newest, kept);
  }

  lemma IndexedAfterAdd(
    frames: seq<SyncFrame>, frame: SyncFrame, newest: seq<SyncFrame>, keys: seq<string>, kept: seq<string>,
    before: map<string, SyncFrame>, index: map<string, SyncFrame>, size: nat)
    requires Indexed(frames, before) && frame.bufferKey !in before && newest == Bounded(frames + [frame], size)
    requires Distinct(keys) && Trimmed(keys, kept, before[frame.bufferKey := frame], index) && Ends(newest, kept)
    ensures Indexed(newest, index)
  {
    hide *;
    IndexedWithNew(frames, before, frame);
    BoundedIndexed(frames + [frame], newest, before[frame.bufferKey := frame], size);
    IndexedAfterTrim(newest, keys, kept, before[frame.bufferKey := frame], index);
  }

  lemma EndsLength(frames: seq<SyncFrame>, keys: seq<string>)
    requires Ends(frames, keys)
    ensures |frames| <= |keys|
  {
  }

  lemma BoundedSizes(all: seq<SyncFrame>, kept: seq<SyncFrame>, size: nat)
    requires kept == Bounded(all, size)
    ensures |kept| == (if |all| > size then size else |all|) && Suffix(kept, all)
  {
  }

  lemma BoundedIndexed(all: seq<SyncFrame>, kept: seq<SyncFrame>, index: map<string, SyncFrame>, size: nat)
    requires Indexed(all, index) && kept == Bounded(all, size)
    ensures Indexed(kept, index)
  {
  }

  lemma TrimmedSuffix(
      keys: seq<string>, kept: seq<string>, before: map<string, SyncFrame>, after: map<string, SyncFrame>)
    requires Trimmed(keys, kept, before, after)
    ensures Suffix(kept, keys)
  {
  }

  lemma KeysAfterAdd(
      retained: seq<string>, keys: seq<string>, frame: SyncFrame, index: map<string, SyncFrame>, size: nat)
    requires |retained| <= size && Distinct(retained) && KeysIndexed(retained, frame.deviceId, index)
    requires frame.bufferKey !in index
    requires keys == retained + [frame.bufferKey]
    ensures Distinct(keys)
  {
    OneMoreIndexed(retained, frame.deviceId, index, frame);
  }

  lemma EndsAfterStart(
      frames: seq<SyncFrame>, started: seq<SyncFrame>, keys: seq<string>, index: map<string, SyncFrame>)
    requires Ends(frames, keys) && Indexed(frames, index) && (started == frames || started == [])
    ensures Ends(started, keys) && Indexed(started, index)
  {
  }

  lemma SteadyIgnoresKeys(camera: CameraState, keys: seq<string>, size: nat)
    requires Steady(camera, size)
    ensures Steady(camera.(retainedKeys := keys), size)
  {
  }

  lemma KeysOfFrames(frames: seq<SyncFrame>, keys: seq<string>)
    requires Ends(frames, keys)
    ensures forall i | 0 <= i < |frames| :: frames[i].bufferKey in keys
  {
  }

  lemma IndexedElsewhere(
    frames: seq<SyncFrame>, others: seq<string>, d: string, index: map<string, SyncFrame>, frame: SyncFrame,
    after: map<string, SyncFrame>, keys: seq<string>, kept: seq<string>)
    requires Indexed(frames, index) && Ends(frames, others) && KeysIndexed(others, d, after)
    requires frame.bufferKey !in index && Trimmed(keys, kept, index[frame.bufferKey := frame], after)
    ensures Indexed(frames, after)
  {
    KeysOfFrames(frames, others);
  }

  lemma OtherBufferedAfterAdd(buffers: BufferState, frame: SyncFrame, d: string)
    requires Agrees(buffers) && Buffered(buffers) && buffers.Accepts(frame) && d != frame.deviceId
    ensures var added := buffers.AddFrame(frame); CameraBuffered(added.Camera(d), added.index, added.size)
  {
    var added := buffers.AddFrame(frame);
    assert CameraBuffered(buffers.Camera(d), buffers.index, buffers.size);
    AddedCamera(buffers, frame, d);
    TrimmedByStoring(buffers, frame);
    AddKeepsIndexed(buffers, frame, d);
    hide BufferState.AddFrame, BufferState.Camera, Trim, Steady, Ends, Indexed, Trimmed, Agrees;
    IndexedElsewhere(
      buffers.Camera(d).frames, buffers.Camera(d).retainedKeys, d, buffers.index, frame, added.index,
      buffers.Camera(frame.deviceId).retainedKeys + [frame.bufferKey], added.Camera(frame.deviceId).retainedKeys);
  }

  lemma BufferedAfterAdd(buffers: BufferState, frame: SyncFrame)
    requires Agrees(buffers) && Buffered(buffers) && frame.mode == V2
    ensures Buffered(buffers.AddFrame(frame))
  {
    var added := buffers.AddFrame(frame);
    AddedCamera(buffers, frame, frame.deviceId);
    hide BufferState.AddFrame, BufferState.Camera, BufferState.Accepts, CameraBuffered, Agrees;
    forall d ensures CameraBuffered(added.Camera(d), added.index, added.size) {
      if !buffers.Accepts(frame) {
        AddedCamera(buffers, frame, d);
      } else if d == frame.deviceId {
        OwnBufferedAfterAdd(buffers, frame);
      } else {
        OtherBufferedAfterAdd(buffers, frame, d);
      }
    }
  }

  // ----- completing an archive -----

  lemma ReplacedBuffered(
      frames: seq<SyncFrame>, keys: seq<string>, index: map<string, SyncFrame>, key: string, archive: Archive)
    requires Ends(frames, keys) && Indexed(frames, index) && key in index && index[key].bufferKey == key
    ensures var updated := index[key].(archive := archive);
            Ends(Replaced(frames, updated), keys) && Indexed(Replaced(frames, updated), index[key := updated])
  {
  }

  lemma ReplacedSteady(camera: CameraState, index: map<string, SyncFrame>, key: string, archive: Archive, size: nat)
    requires Steady(camera, size) && Indexed(camera.frames, index) && key in index && index[key].bufferKey == key
    ensures Steady(camera.(frames := Replaced(camera.frames, index[key].(archive := archive))), size)
  {
    var updated := index[key].(archive := archive);
    var after := Replaced(camera.frames, updated);
    forall i | 0 <= i < |after|
      ensures after[i].timestampMs == camera.frames[i].timestampMs && camera.frames[i] in camera.frames
    {
    }
  }

  lemma UntouchedIndexed(
    frames: seq<SyncFrame>, keys: seq<string>, d: string, index: map<string, SyncFrame>, key: string,
        updated: SyncFrame)
    requires Ends(frames, keys) && Indexed(frames, index) && KeysIndexed(keys, d, index)
    requires key in index && index[key].deviceId != d
    ensures Indexed(frames, index[key := updated])
  {
    KeysOfFrames(frames, keys);
  }

  lemma KeyOfIndexed(buffers: BufferState, key: string)
    requires Agrees(buffers) && key in buffers.index
    ensures buffers.index[key].bufferKey == key
  {
    var d := buffers.index[key].deviceId;
    assert key in buffers.Camera(d).retainedKeys;
    assert CameraIndexed(buffers.Camera(d), d, buffers.index, buffers.size);
  }

  lemma BufferedAfterFinalize(buffers: BufferState, key: string, archive: Archive)
    requires Agrees(buffers) && Buffered(buffers)
    ensures Buffered(buffers.FinalizeArchive(key, archive))
  {
    if key in buffers.index {
      var after := buffers.FinalizeArchive(key, archive);
      var updated := buffers.index[key].(archive := archive);
      KeyOfIndexed(buffers, key);
      FinalizedCamera(buffers, key, archive, updated.deviceId);
      forall d ensures CameraBuffered(after.Camera(d), after.index, after.size) {
        var camera := buffers.Camera(d);
        assert CameraBuffered(camera, buffers.index, buffers.size);
        assert CameraIndexed(camera, d, buffers.index, buffers.size);
        FinalizedCamera(buffers, key, archive, d);
        hide BufferState.FinalizeArchive, BufferState.Camera, Steady, Ends, Indexed, KeysIndexed, Replaced;
        if d == updated.deviceId {
          ReplacedBuffered(camera.frames, camera.retainedKeys, buffers.index, key, archive);
          ReplacedSteady(camera, buffers.index, key, archive, buffers.size);
        } else {
          UntouchedIndexed(camera.frames, camera.retainedKeys, d, buffers.index, key, updated);
        }
      }
    }
  }

  // ----- runs -----

  lemma BufferedAfterStep(config: Config, pruning: bool, state: SyncState, input: Input)
    requires Agrees(state.buffers) && Buffered(state.buffers) && input.frame.mode == V2
    ensures Buffered(HandleFrame(config, pruning, state, input).state.buffers)
  {
    var added := state.buffers.AddFrame(Stored(input.frame));
    var after := HandleFrame(config, pruning, state, input).state.buffers;
    BufferedAfterAdd(state.buffers, Stored(input.frame));
    StepKeepsIndexed(config, pruning, state, input);
    hide HandleFrame, BufferState.AddFrame, BufferState.Camera, CameraBuffered, Thinned, Agrees;
    forall d ensures CameraBuffered(after.Camera(d), after.index, after.size) {
      StepThins(config, pruning, state, input, d);
      ThinnedBuffered(added.Camera(d), after.Camera(d), added.index, added.size);
    }
  }

  predicate OnlyV2(event: Event)
  {
    event.Arrived? ==> event.input.frame.mode == V2
  }

  lemma BufferedAfterEvent(config: Config, state: SyncState, event: Event)
    requires Agrees(state.buffers) && Buffered(state.buffers) && OnlyV2(event)
    ensures Buffered(Apply(config, state, event).buffers)
  {
    match event
    case Arrived(input) =>
      BufferedAfterStep(config, true, state, input);
      ApplyArrived(config, state, input);
    case Completed(frame, given, archive) =>
      hide *;
      BufferedAfterFinalize(state.buffers, BuildBufferKey(frame), archive);
      ApplyCompleted(config, state, frame, given, archive);
  }

  /** In V2 runs the buffered frames are indexed and their keys end the retained queue. */
  lemma {:induction false} V2FramesStayIndexed(config: Config, state: SyncState, events: seq<Event>)
    requires Agrees(state.buffers) && Buffered(state.buffers)
    requires forall i | 0 <= i < |events| :: OnlyV2(events[i])
    ensures Agrees(Play(config, state, events).buffers) && Buffered(Play(config, state, events).buffers)
    decreases |events|
  {
    if events != [] {
      hide Agrees, Buffered, Apply, OnlyV2;
      AgreesAfterEvent(config, state, events[0]);
      BufferedAfterEvent(config, state, events[0]);
      V2FramesStayIndexed(config, Apply(config, state, events[0]), events[1..]);
    }
  }

  lemma InitiallyBuffered(size: nat)
    requires size >= 1
    ensures Agrees(EmptyBuffers(size)) && Buffered(EmptyBuffers(size))
  {
  }
}

/** Which frames the order check turns away: along every V2 run, exactly those that some
    frame stored from the camera's current source is already ahead of. */
module LateFrames {
  import opened Wrappers
  import opened SyncModels
  import opened BufferSpec
  import opened SyncSpec
  import opened PruningInvisible
  import opened Progress

  /** The stored frames since the camera took its source, after one more frame. */
  function Joined(buffers: BufferState, frame: SyncFrame, d: string, past: seq<SyncFrame>): seq<SyncFrame>
  {
    if !buffers.Accepts(frame) || frame.deviceId != d then past
    else if buffers.Camera(d).sourceIdentity == Some(frame.source) then past + [frame]
    else [frame]
  }

  ghost function StoredSince(
      config: Config, pruning: bool, state: SyncState, inputs: seq<Input>, d: string,
      past: seq<SyncFrame>): seq<SyncFrame>
    decreases |inputs|
  {
    if inputs == [] then past
    else
      StoredSince(config, pruning, HandleFrame(config, pruning, state, inputs[0]).state, inputs[1..], d,
                  Joined(state.buffers, Stored(inputs[0].frame), d, past))
  }

  /** The camera's latest values are the greatest among the frames. */
  ghost predicate Newest(camera: CameraState, past: seq<SyncFrame>)
  {
    && AllPassed(camera, past)
    && (camera.lastTimestampMs.Some? ==> exists p | p in past :: p.timestampMs == camera.lastTimestampMs.value)
    && (camera.lastSequence.Some? ==> exists p | p in past :: p.sequence == camera.lastSequence)
    && (camera.sourceIdentity.None? ==> past == [])
  }

  lemma {:induction false} LateByNewest(camera: CameraState, past: seq<SyncFrame>, frame: SyncFrame)
    requires Newest(camera, past) && frame.mode == V2
    ensures camera.IsOutOfOrder(frame)
            <==> Some(frame.source) == camera.sourceIdentity && exists p | p in past :: !Follows(p, frame)
  {
    if camera.IsOutOfOrder(frame) {
      if frame.sequence.Some? && camera.lastSequence.Some? && frame.sequence.value <= camera.lastSequence.value {
        var p :| p in past && p.sequence == camera.lastSequence;
        assert !Follows(p, frame);
      } else {
        var p :| p in past && p.timestampMs == camera.lastTimestampMs.value;
        assert !Follows(p, frame);
      }
    }
    if p :| p in past && !Follows(p, frame) {
      assert Passed(camera, p);
    }
  }

  /** A frame that is not late becomes the newest. */
  lemma NewestAppend(camera: CameraState, past: seq<SyncFrame>, frame: SyncFrame, size: nat)
    requires Newest(camera, past) && camera.sourceIdentity == Some(frame.source)
    requires frame.mode == V2 && !camera.IsOutOfOrder(frame)
    ensures Newest(camera.Append(frame, size), past + [frame])
  {
    var after := camera.Append(frame, size);
    Appended(camera, frame.source, frame, size);
    PassedOn(camera, after, frame);
    hide CameraState.Append, CameraState.IsOutOfOrder, Bounded;
    NewestMoves(camera, after, past, frame);
  }

  lemma NewestMoves(camera: CameraState, after: CameraState, past: seq<SyncFrame>, frame: SyncFrame)
    requires Newest(camera, past) && after.sourceIdentity.Some?
    requires Passed(after, frame) && forall f | Passed(camera, f) :: Passed(after, f)
    requires after.lastTimestampMs == Some(frame.timestampMs)
    requires after.lastSequence == (if frame.sequence.Some? then frame.sequence else camera.lastSequence)
    ensures Newest(after, past + [frame])
  {
    var grown := past + [frame];
    hide Passed;
    assert frame in grown;
    forall f | f in grown ensures Passed(after, f) {
      assert f == frame || f in past;
    }
    if after.lastSequence.Some? && frame.sequence.None? {
      var p :| p in past && p.sequence == camera.lastSequence;
      assert p in grown;
    }
  }

  lemma NewestRestart(camera: CameraState, frame: SyncFrame, size: nat)
    requires camera.sourceIdentity != Some(frame.source)
    ensures Newest(camera.Append(frame, size), [frame])
  {
    hide Bounded;
    assert frame in [frame];
  }

  /** Only the latest values and the source matter. */
  lemma NewestIgnoresFrames(before: CameraState, after: CameraState, past: seq<SyncFrame>)
    requires Newest(before, past) && after.sourceIdentity == before.sourceIdentity
    requires after.lastTimestampMs == before.lastTimestampMs && after.lastSequence == before.lastSequence
    ensures Newest(after, past)
  {
    forall f | f in past ensures Passed(after, f) {
      assert Passed(before, f);
    }
  }

  lemma NewestThin(before: CameraState, after: CameraState, past: seq<SyncFrame>)
    requires Newest(before, past) && Thinned(before, after)
    ensures Newest(after, past)
  {
    ThinnedLatest(before, after);
    hide Newest;
    NewestIgnoresFrames(before, after, past);
  }

  lemma NewestAdd(buffers: BufferState, frame: SyncFrame, d: string, past: seq<SyncFrame>)
    requires Newest(buffers.Camera(d), past) && (frame.deviceId == d ==> frame.mode == V2)
    ensures Newest(buffers.AddFrame(frame).Camera(d), Joined(buffers, frame, d, past))
  {
    AddedCamera(buffers, frame, d);
    hide Newest, CameraState.Append, BufferState.AddFrame;
    if buffers.Accepts(frame) && frame.deviceId == d {
      var camera := buffers.Camera(d);
      if camera.sourceIdentity == Some(frame.source) {
        NewestAppend(camera, past, frame, buffers.size);
      } else {
        NewestRestart(camera, frame, buffers.size);
      }
      NewestIgnoresFrames(camera.Append(frame, buffers.size), buffers.AddFrame(frame).Camera(d),
                          Joined(buffers, frame, d, past));
    }
  }

  predicate AllV2(inputs: seq<Input>, d: string)
  {
    forall i | 0 <= i < |inputs| && inputs[i].frame.deviceId == d :: inputs[i].frame.mode == V2
  }

  lemma {:induction false} RunNewest(
      config: Config, pruning: bool, state: SyncState, inputs: seq<Input>, d: string, past: seq<SyncFrame>)
    requires AllV2(inputs, d) && Newest(state.buffers.Camera(d), past)
    ensures Newest(Run(config, pruning, state, inputs).state.buffers.Camera(d),
                   StoredSince(config, pruning, state, inputs, d, past))
    decreases |inputs|
  {
    if inputs != [] {
      var stored := Stored(inputs[0].frame);
      assert stored.mode == inputs[0].frame.mode && stored.deviceId == inputs[0].frame.deviceId;
      hide HandleFrame, Newest, Joined, BufferState.Camera, BufferState.AddFrame, Thinned, Stored;
      NewestAdd(state.buffers, stored, d, past);
      var joined := Joined(state.buffers, stored, d, past);
      var next := HandleFrame(config, pruning, state, inputs[0]).state;
      StepThins(config, pruning, state, inputs[0], d);
      NewestThin(state.buffers.AddFrame(stored).Camera(d), next.buffers.Camera(d), joined);
      RunNewest(config, pruning, next, inputs[1..], d, joined);
    }
  }

  /** After any run in which the camera sent V2 frames, across its changes of source: a V2 frame
      is late exactly if it comes from the current source and does not follow some frame that
      was stored from it. */
  lemma {:induction false} LateIffBehind(
      config: Config, pruning: bool, size: nat, runId: string, inputs: seq<Input>, d: string, frame: SyncFrame)
    requires AllV2(inputs, d) && frame.mode == V2
    ensures var camera := Run(config, pruning, Initial(size, runId), inputs).state.buffers.Camera(d);
            camera.IsOutOfOrder(frame)
            <==> && Some(frame.source) == camera.sourceIdentity
                 && exists p | p in StoredSince(config, pruning, Initial(size, runId), inputs, d, []) ::
                   !Follows(p, frame)
  {
    assert Newest(Initial(size, runId).buffers.Camera(d), []);
    hide *;
    RunNewest(config, pruning, Initial(size, runId), inputs, d, []);
    LateByNewest(Run(config, pruning, Initial(size, runId), inputs).state.buffers.Camera(d),
                 StoredSince(config, pruning, Initial(size, runId), inputs, d, []), frame);
  }
}

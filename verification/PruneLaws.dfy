/** Which frames a step leaves in the buffers, said of the last timestamps and the emitted set. */
module PruneLaws {
  import opened Wrappers
  import opened SyncModels
  import opened BufferSpec
  import opened IdentityResolution
  import opened SyncSpec
  import opened Quiescence
  import MinSpanSweep
  import opened PruningInvisible
  import opened Progress

  /** Some expected camera has not sent yet, or was last heard not later than the window after
      the frame. */
  ghost predicate StillNeeded(config: Config, buffers: BufferState, f: SyncFrame)
  {
    exists e ::
      && e in config.cameras
      && (buffers.Camera(e).lastTimestampMs.None?
          || buffers.Camera(e).lastTimestampMs.value - config.windowMs <= f.timestampMs)
  }

  lemma {:induction false} WatermarkIsSome(buffers: BufferState, cameras: seq<string>) returns (d: string)
    requires cameras != [] && AllSeen(buffers, cameras)
    ensures d in cameras && buffers.Camera(d).lastTimestampMs == Some(Watermark(buffers, cameras))
  {
    d := cameras[0];
    if |cameras| > 1 {
      var e := WatermarkIsSome(buffers, cameras[1..]);
      if buffers.Camera(d).lastTimestampMs.value >= Watermark(buffers, cameras[1..]) { d := e; }
    }
  }

  /** Stale pruning keeps exactly the frames that are still needed, and all of other cameras. */
  lemma {:induction false} PruneKeepsExactly(config: Config, buffers: BufferState, d: string, f: SyncFrame)
    requires config.cameras != []
    ensures f in PrunedBuffers(config, true, buffers).Frames(d)
            <==> f in buffers.Frames(d) && (d in config.cameras ==> StillNeeded(config, buffers, f))
  {
    if AllSeen(buffers, config.cameras) {
      var cutoff := Watermark(buffers, config.cameras) - config.windowMs;
      KeptFrames(buffers, config.cameras, cutoff, d);
      NotBeforeKeeps(buffers.Frames(d), cutoff);
      var e := WatermarkIsSome(buffers, config.cameras);
      forall c | c in config.cameras
        ensures Watermark(buffers, config.cameras) <= buffers.Camera(c).lastTimestampMs.value
      {
        WatermarkIsLeast(buffers, config.cameras, c);
      }
    }
  }

  /** Not used up by the set: the camera is not in it, or the frame is later than its member. */
  ghost predicate NotConsumed(emitted: Option<FrameSet>, d: string, f: SyncFrame)
  {
    emitted.Some? && d in emitted.value.frames ==> f.timestampMs > emitted.value.frames[d].timestampMs
  }

  lemma ConsumedExactly(config: Config, state: SyncState, input: Input, d: string, f: SyncFrame)
    requires config.cameras != []
    ensures var out := Attempt(config, state, input);
            && (f in out.state.buffers.Frames(d) <==> f in state.buffers.Frames(d) && NotConsumed(out.emitted, d, f))
            && forall e :: out.state.buffers.Camera(e).lastTimestampMs == state.buffers.Camera(e).lastTimestampMs
  {
    hide Attempt, Best, Resolve, Emit, BufferState.Camera, BufferState.ConsumeThrough, BufferState.Frames;
    var out, best := Attempt(config, state, input), Best(config, state);
    if best.None? || Resolve(Members(config.cameras, best.value)).ScopeConflict? {
      AttemptMisses(config, state, input);
    } else {
      var identity := Resolve(Members(config.cameras, best.value)).identity;
      AttemptEmits(config, state, input, best.value, identity);
      EmitConsumes(config, state, best.value, identity, input);
      ConsumedFrames(state.buffers, best.value, d);
      if d in best.value { NotBeforeKeeps(state.buffers.Frames(d), best.value[d].timestampMs + 1); }
      forall e ensures out.state.buffers.Camera(e).lastTimestampMs == state.buffers.Camera(e).lastTimestampMs {
        ConsumedCamera(state.buffers, best.value, e);
      }
    }
  }

  lemma EmitConsumes(config: Config, state: SyncState, frames: Selection, identity: CaptureIdentity, input: Input)
    requires frames != map[] && forall d :: d in config.cameras <==> d in frames
    ensures var out := Emit(config, state, frames, identity, input);
            && out.state.buffers == state.buffers.ConsumeThrough(frames)
            && out.emitted.Some? && out.emitted.value.frames == frames
  {
    hide ManifestOf, SetArchiveState, SetArchiveErrors, BufferState.ConsumeThrough, BufferState.SupersededTotal;
  }

  /** After an attempt exactly the frames are left that the set did not use up and that are still
      needed, and all of unexpected cameras; without an attempt all are left. */
  lemma {:induction false} StepLeavesExactly(config: Config, state: SyncState, input: Input, d: string, f: SyncFrame)
    requires config.cameras != []
    ensures var added := state.buffers.AddFrame(Stored(input.frame));
            var step := HandleFrame(config, true, state, input);
            var attempted := state.buffers.Accepts(Stored(input.frame)) && input.frame.deviceId in config.cameras;
            && (f in step.state.buffers.Frames(d)
                <==> && f in added.Frames(d)
                     && (attempted && d in config.cameras ==>
                           NotConsumed(step.emitted, d, f) && StillNeeded(config, added, f)))
            && (!attempted ==> step.emitted.None?)
  {
    var added := state.(buffers := state.buffers.AddFrame(Stored(input.frame)));
    var out := Attempt(config, added, input);
    ConsumedExactly(config, added, input, d, f);
    PruneKeepsExactly(config, out.state.buffers, d, f);
    SetsOfCameras(config, added, input, d);
    hide Attempt, BufferState.AddFrame, BufferState.Accepts, BuildBufferKey, PrunedBuffers, BufferState.Camera,
      BufferState.Frames;
  }

  lemma SetsOfCameras(config: Config, state: SyncState, input: Input, d: string)
    requires config.cameras != []
    ensures var emitted := Attempt(config, state, input).emitted;
            emitted.Some? && d in emitted.value.frames ==> d in config.cameras
  {
    hide Attempt, WellFormed;
    if Attempt(config, state, input).emitted.Some? {
      EmittedByAttempt(config, state, input);
      assert WellFormed(config, Attempt(config, state, input).emitted.value);
      FramesOfCameras(config, Attempt(config, state, input).emitted.value, d);
    }
  }

  lemma FramesOfCameras(config: Config, emitted: FrameSet, d: string)
    requires WellFormed(config, emitted)
    ensures d in emitted.frames <==> d in config.cameras
  {
  }

  /** A step emits exactly if the frame is stored and expected, some choice of one held frame per
      camera fits, and the candidate has no scope conflict. What it emits fits and is no worse
      than any choice. */
  lemma {:induction false} EmitsExactly(config: Config, pruning: bool, state: SyncState, input: Input)
    requires config.cameras != []
    ensures var held := Held(state.buffers.AddFrame(Stored(input.frame)), config.cameras);
            var emitted := HandleFrame(config, pruning, state, input).emitted;
            && (emitted.Some?
                <==> && state.buffers.Accepts(Stored(input.frame)) && input.frame.deviceId in config.cameras
                     && (exists pick :: Fits(held, pick, config.windowMs))
                     && !ConflictArises(config, state, input))
            && (emitted.Some? ==>
                  && Fits(held, emitted.value.frames, config.windowMs)
                  && forall pick | pick != map[] && MinSpanSweep.IsSelection(held, pick) ::
                       MinSpanSweep.NoWorse(emitted.value.frames, pick))
  {
    var added := state.(buffers := state.buffers.AddFrame(Stored(input.frame)));
    BestIsOptimal(config, added);
    EmitsBest(config, added, input);
    hide Attempt, Best, Resolve, BufferState.AddFrame, BufferState.Accepts, BuildBufferKey, Fits, Held, Members,
      PrunedBuffers;
  }

  lemma EmitsBest(config: Config, state: SyncState, input: Input)
    requires config.cameras != []
    ensures var emitted, best := Attempt(config, state, input).emitted, Best(config, state);
            && (emitted.Some? <==> best.Some? && !Resolve(Members(config.cameras, best.value)).ScopeConflict?)
            && (emitted.Some? ==> emitted.value.frames == best.value)
  {
    hide Attempt, Best, Resolve, Emit;
    var best := Best(config, state);
    if best.None? || Resolve(Members(config.cameras, best.value)).ScopeConflict? {
      AttemptMisses(config, state, input);
    } else {
      var identity := Resolve(Members(config.cameras, best.value)).identity;
      AttemptEmits(config, state, input, best.value, identity);
      EmitConsumes(config, state, best.value, identity, input);
    }
  }
}

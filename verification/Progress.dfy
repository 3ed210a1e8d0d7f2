/** While a camera keeps its source, the members it contributes to successive frame sets
    move forward: their sequences strictly increase and their timestamps never go back. */
module Progress {
  import opened Wrappers
  import opened Sequences
  import opened SyncModels
  import opened BufferSpec
  import opened IdentityResolution
  import opened SyncSpec
  import opened Quiescence
  import opened PruningInvisible

  predicate Follows(earlier: SyncFrame, later: SyncFrame)
  {
    && earlier.timestampMs <= later.timestampMs
    && (earlier.sequence.Some? && later.sequence.Some? ==> earlier.sequence.value < later.sequence.value)
  }

  predicate Chain(frames: seq<SyncFrame>)
  {
    forall i, j | 0 <= i < j < |frames| :: Follows(frames[i], frames[j])
  }

  /** The camera has seen the frame, or later ones. */
  predicate Passed(camera: CameraState, frame: SyncFrame)
  {
    && camera.lastTimestampMs.Some? && frame.timestampMs <= camera.lastTimestampMs.value
    && (frame.sequence.Some? ==> camera.lastSequence.Some? && frame.sequence.value <= camera.lastSequence.value)
  }

  ghost predicate AllPassed(camera: CameraState, frames: seq<SyncFrame>)
  {
    forall f | f in frames :: Passed(camera, f)
  }

  /** The frames a camera has contributed so far, then those it still holds, form a chain. */
  ghost predicate Trail(past: seq<SyncFrame>, camera: CameraState, source: SourceIdentity)
  {
    && Chain(past + camera.frames)
    && AllPassed(camera, past + camera.frames)
    && (match camera.sourceIdentity
        case None => past == [] && camera.frames == [] && camera.lastTimestampMs.None? && camera.lastSequence.None?
        case Some(identity) => identity == source)
  }

  function MemberOf(emitted: FrameSet, d: string): seq<SyncFrame>
  {
    if d in emitted.frames then [emitted.frames[d]] else []
  }

  /** What a camera contributes to a series of frame sets. */
  function Contribution(sets: seq<FrameSet>, d: string): seq<SyncFrame>
  {
    if sets == [] then []
    else MemberOf(sets[0], d) + Contribution(sets[1..], d)
  }

  // ----- one camera -----

  lemma ChainDrops(past: seq<SyncFrame>, frames: seq<SyncFrame>, kept: seq<SyncFrame>)
    requires Chain(past + frames) && |kept| <= |frames| && kept == frames[|frames| - |kept|..]
    ensures Chain(past + kept)
  {
    var all, some, gap := past + frames, past + kept, |frames| - |kept|;
    forall i, j | 0 <= i < j < |some| ensures Follows(some[i], some[j]) {
      var k, l := if i < |past| then i else i + gap, if j < |past| then j else j + gap;
      assert some[i] == all[k] && some[j] == all[l];
    }
  }

  lemma ChainGrows(frames: seq<SyncFrame>, camera: CameraState, frame: SyncFrame)
    requires Chain(frames) && forall f | f in frames :: Passed(camera, f)
    requires camera.lastTimestampMs.Some? ==> camera.lastTimestampMs.value <= frame.timestampMs
    requires camera.lastSequence.Some? && frame.sequence.Some? ==> camera.lastSequence.value < frame.sequence.value
    ensures Chain(frames + [frame])
  {
    var grown := frames + [frame];
    forall i, j | 0 <= i < j < |grown| ensures Follows(grown[i], grown[j]) {
      assert grown[i] in frames;
    }
  }

  lemma ChainAppend(past: seq<SyncFrame>, camera: CameraState, frame: SyncFrame, kept: seq<SyncFrame>)
    requires Chain(past + camera.frames) && AllPassed(camera, past + camera.frames)
    requires camera.lastTimestampMs.Some? ==> camera.lastTimestampMs.value <= frame.timestampMs
    requires camera.lastSequence.Some? && frame.sequence.Some? ==> camera.lastSequence.value < frame.sequence.value
    requires |kept| <= |camera.frames| + 1 && kept == (camera.frames + [frame])[|camera.frames| + 1 - |kept|..]
    ensures Chain(past + kept)
  {
    ChainGrows(past + camera.frames, camera, frame);
    assert past + camera.frames + [frame] == past + (camera.frames + [frame]);
    hide Chain;
    ChainDrops(past, camera.frames + [frame], kept);
  }

  /** Once a camera has moved on, what it had passed stays passed. */
  lemma StillPassed(camera: CameraState, after: CameraState, past: seq<SyncFrame>, frame: SyncFrame)
    requires AllPassed(camera, past + camera.frames) && Passed(after, frame)
    requires forall f | Passed(camera, f) :: Passed(after, f)
    requires forall f | f in after.frames :: f in camera.frames || f == frame
    ensures AllPassed(after, past + after.frames)
  {
    hide Passed;
    forall f | f in past + after.frames ensures Passed(after, f) {
      if f != frame {
        assert f in past + camera.frames;
      }
    }
  }

  lemma Appended(camera: CameraState, source: SourceIdentity, frame: SyncFrame, size: nat)
    requires || camera.sourceIdentity == Some(source)
             || (camera.frames == [] && camera.lastTimestampMs.None? && camera.lastSequence.None?)
    requires frame.source == source && frame.mode == V2 && !camera.IsOutOfOrder(frame)
    ensures var after, all := camera.Append(frame, size), camera.frames + [frame];
            && after.sourceIdentity == Some(source)
            && after.frames == Bounded(all, size)
            && after.lastTimestampMs == Some(frame.timestampMs)
            && after.lastSequence == (if frame.sequence.Some? then frame.sequence else camera.lastSequence)
            && (camera.lastTimestampMs.Some? ==> camera.lastTimestampMs.value <= frame.timestampMs)
            && (camera.lastSequence.Some? && frame.sequence.Some? ==> camera.lastSequence.value < frame.sequence.value)
  {
  }

  lemma BoundedMembers(frames: seq<SyncFrame>, frame: SyncFrame, kept: seq<SyncFrame>, size: nat)
    requires kept == Bounded(frames + [frame], size)
    ensures |kept| <= |frames| + 1 && kept == (frames + [frame])[|frames| + 1 - |kept|..]
    ensures forall f | f in kept :: f in frames || f == frame
  {
  }

  lemma TrailAppend(past: seq<SyncFrame>, camera: CameraState, source: SourceIdentity, frame: SyncFrame, size: nat)
    requires Trail(past, camera, source) && frame.source == source && frame.mode == V2 && !camera.IsOutOfOrder(frame)
    ensures Trail(past, camera.Append(frame, size), source)
  {
    hide CameraState.Append, CameraState.IsOutOfOrder, Chain, AllPassed, Follows, Bounded, Passed;
    var after := camera.Append(frame, size);
    Appended(camera, source, frame, size);
    BoundedMembers(camera.frames, frame, after.frames, size);
    ChainAppend(past, camera, frame, after.frames);
    PassedOn(camera, after, frame);
    StillPassed(camera, after, past, frame);
  }

  lemma PassedOn(camera: CameraState, after: CameraState, frame: SyncFrame)
    requires after.lastTimestampMs == Some(frame.timestampMs)
    requires after.lastSequence == (if frame.sequence.Some? then frame.sequence else camera.lastSequence)
    requires camera.lastTimestampMs.Some? ==> camera.lastTimestampMs.value <= frame.timestampMs
    requires camera.lastSequence.Some? && frame.sequence.Some? ==> camera.lastSequence.value < frame.sequence.value
    ensures Passed(after, frame) && forall f | Passed(camera, f) :: Passed(after, f)
  {
  }

  lemma ChainAscends(past: seq<SyncFrame>, frames: seq<SyncFrame>)
    requires Chain(past + frames)
    ensures Ascending(frames)
  {
    var all := past + frames;
    forall i, j | 0 <= i < j < |frames| ensures frames[i].timestampMs <= frames[j].timestampMs {
      assert all[|past| + i] == frames[i] && all[|past| + j] == frames[j];
      assert Follows(all[|past| + i], all[|past| + j]);
    }
  }

  lemma TrailKeep(past: seq<SyncFrame>, camera: CameraState, source: SourceIdentity, cutoffMs: int)
    requires Trail(past, camera, source)
    ensures Trail(past, camera.KeepFrom(cutoffMs), source)
  {
    ChainAscends(past, camera.frames);
    NotBeforeIsSuffix(camera.frames, cutoffMs);
    var kept := NotBefore(camera.frames, cutoffMs);
    ChainDrops(past, camera.frames, kept);
    forall f | f in past + kept ensures Passed(camera, f) {
      NotBeforeKeeps(camera.frames, cutoffMs);
      assert f in past + camera.frames;
    }
  }

  lemma TrailThin(past: seq<SyncFrame>, before: CameraState, after: CameraState, source: SourceIdentity)
    requires Trail(past, before, source) && Thinned(before, after)
    ensures Trail(past, after, source)
  {
    if after != before {
      var t :| after == before.KeepFrom(t);
      TrailKeep(past, before, source, t);
    }
  }

  lemma SuffixStart(frames: seq<SyncFrame>, k: nat, cutoffMs: int)
    requires k < |frames| && Ascending(frames) && frames[k].timestampMs < cutoffMs
    ensures |NotBefore(frames, cutoffMs)| <= |frames| - k - 1
    ensures NotBefore(frames, cutoffMs) == frames[|frames| - |NotBefore(frames, cutoffMs)|..]
  {
    NotBeforeIsSuffix(frames, cutoffMs);
    var kept := NotBefore(frames, cutoffMs);
    var start := |frames| - |kept|;
    assert start <= k ==> kept[k - start] == frames[k] && frames[k] in kept;
    NotBeforeKeeps(frames, cutoffMs);
  }

  lemma ChainConsume(past: seq<SyncFrame>, frames: seq<SyncFrame>, k: nat, kept: seq<SyncFrame>)
    requires Chain(past + frames) && k < |frames|
    requires |kept| <= |frames| - k - 1 && kept == frames[|frames| - |kept|..]
    ensures Chain(past + [frames[k]] + kept)
  {
    var all, some, gap := past + frames, past + [frames[k]] + kept, |frames| - |kept| - 1;
    forall i, j | 0 <= i < j < |some| ensures Follows(some[i], some[j]) {
      var p := if i < |past| then i else if i == |past| then |past| + k else i + gap;
      var q := if j < |past| then j else if j == |past| then |past| + k else j + gap;
      assert some[i] == all[p] && some[j] == all[q];
    }
  }

  /** Consuming moves the chosen frame from the buffer to the past, and drops what is before it. */
  lemma TrailConsume(past: seq<SyncFrame>, camera: CameraState, source: SourceIdentity, chosen: SyncFrame)
    requires Trail(past, camera, source) && chosen in camera.frames
    ensures Trail(past + [chosen], camera.KeepFrom(chosen.timestampMs + 1), source)
  {
    hide Chain, Passed;
    var frames := camera.frames;
    var kept := NotBefore(frames, chosen.timestampMs + 1);
    ChainAscends(past, frames);
    var k :| 0 <= k < |frames| && frames[k] == chosen;
    SuffixStart(frames, k, chosen.timestampMs + 1);
    ChainConsume(past, frames, k, kept);
    forall f | f in past + [chosen] + kept ensures Passed(camera, f) {
      assert f in past + frames;
    }
    PassedIgnoresFrames(camera, kept, past + [chosen] + kept);
  }

  lemma PassedIgnoresFrames(camera: CameraState, kept: seq<SyncFrame>, frames: seq<SyncFrame>)
    requires AllPassed(camera, frames)
    ensures AllPassed(camera.(frames := kept), frames)
  {
  }

  // ----- one step -----

  /** The frame, if it comes from the camera and the source, is a V2 frame. */
  predicate V2OfSource(frame: SyncFrame, d: string, source: SourceIdentity)
  {
    frame.deviceId == d && frame.source == source ==> frame.mode == V2
  }

  /** The frame, if it comes from the camera, is a V2 frame of the camera's source. */
  predicate FromSource(frame: SyncFrame, d: string, source: SourceIdentity)
  {
    frame.deviceId == d ==> frame.mode == V2 && frame.source == source
  }

  lemma {:induction false} StepTrail(
    config: Config, pruning: bool, state: SyncState, input: Input, d: string, source: SourceIdentity,
        past: seq<SyncFrame>)
    requires d in config.cameras && FromSource(input.frame, d, source) && Trail(past, state.buffers.Camera(d), source)
    ensures var step := HandleFrame(config, pruning, state, input);
            Trail(past + Contribution(AsSeq(step.emitted), d), step.state.buffers.Camera(d), source)
  {
    var stored := Stored(input.frame);
    var added := state.(buffers := state.buffers.AddFrame(stored));
    AddTrail(state.buffers, stored, d, source, past);
    assert past + [] == past;
    if state.buffers.Accepts(stored) && stored.deviceId in config.cameras {
      AttemptTrail(config, pruning, added, input, d, source, past);
    }
  }

  lemma AddTrail(buffers: BufferState, frame: SyncFrame, d: string, source: SourceIdentity, past: seq<SyncFrame>)
    requires FromSource(frame, d, source) && Trail(past, buffers.Camera(d), source)
    ensures Trail(past, buffers.AddFrame(frame).Camera(d), source)
  {
    AddedCamera(buffers, frame, d);
    if buffers.Accepts(frame) && frame.deviceId == d {
      hide Trail, CameraState.Append;
      TrailAppend(past, buffers.Camera(d), source, frame, buffers.size);
      var appended := buffers.Camera(d).Append(frame, buffers.size);
      TrailIgnoresKeys(past, appended, source, buffers.AddFrame(frame).Camera(d).retainedKeys);
    }
  }

  /** Once the camera is on the source, or before its first frame, what it holds is a chain. */
  ghost predicate HeldTrail(camera: CameraState, source: SourceIdentity)
  {
    camera.sourceIdentity.None? || camera.sourceIdentity == Some(source) ==> Trail([], camera, source)
  }

  /** A camera that changes to the source starts a new trail. */
  lemma RestartTrail(camera: CameraState, source: SourceIdentity, frame: SyncFrame, size: nat)
    requires camera.sourceIdentity != Some(source) && frame.source == source && frame.mode == V2
    ensures Trail([], camera.Append(frame, size), source)
  {
    Restarted(camera, source, frame, size);
    hide *;
    TrailAppend([], camera.ForSource(source), source, frame, size);
  }

  lemma Restarted(camera: CameraState, source: SourceIdentity, frame: SyncFrame, size: nat)
    requires camera.sourceIdentity != Some(source) && frame.source == source
    ensures var started := camera.ForSource(source);
            && camera.Append(frame, size) == started.Append(frame, size)
            && !started.IsOutOfOrder(frame) && Trail([], started, source)
  {
    var started := camera.ForSource(source);
    assert started.frames == [] && started.lastTimestampMs.None? && started.lastSequence.None?;
    assert started.sourceIdentity == Some(source);
    StartedOnce(camera, source);
    hide Bounded, CameraState.ForSource;
    EmptyTrail(started, source);
    hide Trail;
  }

  lemma StartedOnce(camera: CameraState, source: SourceIdentity)
    ensures camera.ForSource(source).ForSource(source) == camera.ForSource(source)
    ensures camera.ForSource(source).receivedCount == camera.receivedCount
    ensures camera.ForSource(source).sequenceGapCount == camera.sequenceGapCount
  {
  }

  lemma EmptyTrail(camera: CameraState, source: SourceIdentity)
    requires camera.frames == [] && camera.sourceIdentity == Some(source)
    ensures Trail([], camera, source)
  {
  }

  lemma AppendedSource(camera: CameraState, frame: SyncFrame, size: nat)
    ensures camera.Append(frame, size).sourceIdentity == Some(frame.source)
  {
  }

  lemma HeldAppend(camera: CameraState, source: SourceIdentity, frame: SyncFrame, size: nat)
    requires HeldTrail(camera, source) && !camera.IsOutOfOrder(frame)
    requires frame.source == source ==> frame.mode == V2
    ensures HeldTrail(camera.Append(frame, size), source)
  {
    AppendedSource(camera, frame, size);
    hide Trail, CameraState.Append, CameraState.IsOutOfOrder;
    if frame.source == source {
      if camera.sourceIdentity == Some(source) {
        TrailAppend([], camera, source, frame, size);
      } else {
        RestartTrail(camera, source, frame, size);
      }
    }
  }

  lemma HeldAdd(buffers: BufferState, frame: SyncFrame, d: string, source: SourceIdentity)
    requires V2OfSource(frame, d, source) && HeldTrail(buffers.Camera(d), source)
    ensures HeldTrail(buffers.AddFrame(frame).Camera(d), source)
  {
    AddedCamera(buffers, frame, d);
    if buffers.Accepts(frame) && frame.deviceId == d {
      hide Trail, CameraState.Append;
      HeldAppend(buffers.Camera(d), source, frame, buffers.size);
      var appended := buffers.Camera(d).Append(frame, buffers.size);
      if appended.sourceIdentity == Some(source) {
        TrailIgnoresKeys([], appended, source, buffers.AddFrame(frame).Camera(d).retainedKeys);
      }
    }
  }

  lemma ThinnedLatest(before: CameraState, after: CameraState)
    requires Thinned(before, after)
    ensures after.sourceIdentity == before.sourceIdentity
    ensures after.lastTimestampMs == before.lastTimestampMs && after.lastSequence == before.lastSequence
  {
  }

  /** Whatever source the camera is on, a step keeps this. */
  lemma {:induction false} StepHolds(
      config: Config, pruning: bool, state: SyncState, input: Input, d: string, source: SourceIdentity)
    requires V2OfSource(input.frame, d, source) && HeldTrail(state.buffers.Camera(d), source)
    ensures HeldTrail(HandleFrame(config, pruning, state, input).state.buffers.Camera(d), source)
  {
    hide *;
    var stored := Stored(input.frame);
    StoredFrom(input.frame, d, source);
    HeldAdd(state.buffers, stored, d, source);
    StepThins(config, pruning, state, input, d);
    HeldThin(state.buffers.AddFrame(stored).Camera(d),
             HandleFrame(config, pruning, state, input).state.buffers.Camera(d), source);
  }

  lemma StoredFrom(frame: SyncFrame, d: string, source: SourceIdentity)
    ensures V2OfSource(Stored(frame), d, source) == V2OfSource(frame, d, source)
  {
  }

  lemma HeldThin(before: CameraState, after: CameraState, source: SourceIdentity)
    requires HeldTrail(before, source) && Thinned(before, after)
    ensures HeldTrail(after, source)
  {
    ThinnedLatest(before, after);
    hide Thinned, Trail;
    if after.sourceIdentity.None? || after.sourceIdentity == Some(source) {
      TrailThin([], before, after, source);
    }
  }

  lemma TrailIgnoresKeys(past: seq<SyncFrame>, camera: CameraState, source: SourceIdentity, keys: seq<string>)
    requires Trail(past, camera, source)
    ensures Trail(past, camera.(retainedKeys := keys), source)
  {
  }

  lemma EmittedMember(config: Config, state: SyncState, input: Input, d: string)
    requires config.cameras != [] && d in config.cameras && Attempt(config, state, input).emitted.Some?
    ensures var best := Best(config, state);
            && best.Some? && d in best.value && best.value[d] in state.buffers.Frames(d)
            && Attempt(config, state, input).emitted.value.frames == best.value
  {
    hide MinSpanSweep.Candidate;
    BestIsOptimal(config, state);
    assert d in Held(state.buffers, config.cameras);
  }

  lemma HeldByCamera(buffers: BufferState, d: string)
    ensures buffers.Frames(d) == buffers.Camera(d).frames
  {
  }

  lemma NoContribution(d: string)
    ensures Contribution(AsSeq(None), d) == []
  {
  }

  lemma OneContribution(emitted: FrameSet, d: string)
    requires d in emitted.frames
    ensures Contribution(AsSeq(Some(emitted)), d) == [emitted.frames[d]]
  {
  }

  lemma AttemptTrail(
    config: Config, pruning: bool, state: SyncState, input: Input, d: string, source: SourceIdentity,
        past: seq<SyncFrame>)
    requires config.cameras != [] && d in config.cameras && Trail(past, state.buffers.Camera(d), source)
    ensures var attempt := Attempt(config, state, input);
            Trail(past + Contribution(AsSeq(attempt.emitted), d),
                  PrunedBuffers(config, pruning, attempt.state.buffers).Camera(d), source)
  {
    hide *;
    var attempt := Attempt(config, state, input);
    AttemptBuffers(config, state, input);
    PruneThins(config, pruning, attempt.state.buffers, d);
    if attempt.emitted.None? {
      NoContribution(d);
      assert past + [] == past;
    } else {
      var best := Best(config, state).value;
      EmittedMember(config, state, input, d);
      ConsumedCamera(state.buffers, best, d);
      HeldByCamera(state.buffers, d);
      TrailConsume(past, state.buffers.Camera(d), source, best[d]);
      OneContribution(attempt.emitted.value, d);
    }
    TrailThin(past + Contribution(AsSeq(attempt.emitted), d), attempt.state.buffers.Camera(d),
              PrunedBuffers(config, pruning, attempt.state.buffers).Camera(d), source);
  }

  // ----- whole runs -----

  predicate AllFromSource(inputs: seq<Input>, d: string, source: SourceIdentity)
  {
    forall i | 0 <= i < |inputs| :: FromSource(inputs[i].frame, d, source)
  }

  lemma ContributionOf(sets: seq<FrameSet>, d: string)
    requires sets != []
    ensures Contribution(sets, d) == MemberOf(sets[0], d) + Contribution(sets[1..], d)
  {
  }

  lemma {:induction false} ContributionAppend(a: seq<FrameSet>, b: seq<FrameSet>, d: string)
    ensures Contribution(a + b, d) == Contribution(a, d) + Contribution(b, d)
  {
    if a == [] {
      assert a + b == b;
    } else {
      ContributionAppend(a[1..], b, d);
      assert (a + b)[0] == a[0] && (a + b)[1..] == a[1..] + b;
      ContributionOf(a, d);
      ContributionOf(a + b, d);
      hide Contribution, MemberOf;
      Associative(MemberOf(a[0], d), Contribution(a[1..], d), Contribution(b, d));
    }
  }

  /** Everything a camera contributes along a run, after what it contributed before, is a chain. */
  lemma {:induction false} RunTrail(
    config: Config, pruning: bool, state: SyncState, inputs: seq<Input>, d: string, source: SourceIdentity,
        past: seq<SyncFrame>)
    requires d in config.cameras && AllFromSource(inputs, d, source) && Trail(past, state.buffers.Camera(d), source)
    ensures Chain(past + Contribution(Run(config, pruning, state, inputs).emitted, d))
    decreases |inputs|
  {
    if inputs == [] {
      assert past + [] == past;
      ChainDrops(past, state.buffers.Camera(d).frames, []);
    } else {
      hide HandleFrame, Trail, Chain, Contribution, AsSeq, FromSource;
      var step := HandleFrame(config, pruning, state, inputs[0]);
      var rest := Run(config, pruning, step.state, inputs[1..]);
      var first := Contribution(AsSeq(step.emitted), d);
      StepTrail(config, pruning, state, inputs[0], d, source, past);
      RunTrail(config, pruning, step.state, inputs[1..], d, source, past + first);
      ContributionAppend(AsSeq(step.emitted), rest.emitted, d);
      Associative(past, first, Contribution(rest.emitted, d));
    }
  }

  /** Where the i-th set's member stands among the contributions. */
  lemma ContributionAt(sets: seq<FrameSet>, i: nat, d: string)
    requires i < |sets| && d in sets[i].frames
    ensures var at := |Contribution(sets[..i], d)|;
            at < |Contribution(sets, d)| && Contribution(sets, d)[at] == sets[i].frames[d]
  {
    assert sets == sets[..i] + sets[i..];
    ContributionAppend(sets[..i], sets[i..], d);
  }

  lemma ChainOfSets(sets: seq<FrameSet>, d: string, i: nat, j: nat)
    requires Chain(Contribution(sets, d)) && i < j < |sets| && d in sets[i].frames && d in sets[j].frames
    ensures Follows(sets[i].frames[d], sets[j].frames[d])
  {
    hide Contribution, Follows;
    assert sets[..j][..i] == sets[..i];
    ContributionAt(sets[..j], i, d);
    ContributionAt(sets, i, d);
    ContributionAt(sets, j, d);
    assert |Contribution(sets[..i], d)| < |Contribution(sets[..j], d)|;
  }

  predicate AllV2OfSource(inputs: seq<Input>, d: string, source: SourceIdentity)
  {
    forall i | 0 <= i < |inputs| :: V2OfSource(inputs[i].frame, d, source)
  }

  lemma {:induction false} RunHolds(
      config: Config, pruning: bool, state: SyncState, inputs: seq<Input>, d: string, source: SourceIdentity)
    requires AllV2OfSource(inputs, d, source) && HeldTrail(state.buffers.Camera(d), source)
    ensures HeldTrail(Run(config, pruning, state, inputs).state.buffers.Camera(d), source)
    decreases |inputs|
  {
    if inputs != [] {
      hide HandleFrame, HeldTrail, V2OfSource, BufferState.Camera;
      StepHolds(config, pruning, state, inputs[0], d, source);
      RunHolds(config, pruning, HandleFrame(config, pruning, state, inputs[0]).state, inputs[1..], d, source);
    }
  }

  /** A stretch of a run during which the camera stays on the source: at its beginning the
      camera is on the source, or has sent nothing, and in it sends V2 frames of this source.
      Before it the camera may have been on any sources, on this one with V2 frames only. */
  ghost predicate Stretch(
      config: Config, pruning: bool, start: SyncState, before: seq<Input>, inputs: seq<Input>, d: string,
      source: SourceIdentity)
  {
    var held := Run(config, pruning, start, before).state.buffers.Camera(d).sourceIdentity;
    && (held.None? || held == Some(source))
    && AllV2OfSource(before, d, source)
    && AllFromSource(inputs, d, source)
  }

  lemma NothingHeld(size: nat, runId: string, d: string, source: SourceIdentity)
    ensures HeldTrail(Initial(size, runId).buffers.Camera(d), source)
  {
  }

  lemma {:induction false} StretchChain(
      config: Config, pruning: bool, size: nat, runId: string, before: seq<Input>, inputs: seq<Input>, d: string,
      source: SourceIdentity)
    requires d in config.cameras && Stretch(config, pruning, Initial(size, runId), before, inputs, d, source)
    ensures var at := Run(config, pruning, Initial(size, runId), before).state;
            Chain(Contribution(Run(config, pruning, at, inputs).emitted, d))
  {
    NothingHeld(size, runId, d, source);
    hide Run, Trail, Chain, Contribution, AllFromSource, AllV2OfSource;
    RunHolds(config, pruning, Initial(size, runId), before, d, source);
    var at := Run(config, pruning, Initial(size, runId), before).state;
    RunTrail(config, pruning, at, inputs, d, source, []);
    EmptyLeft(Contribution(Run(config, pruning, at, inputs).emitted, d));
  }

  /** Whatever else arrives, late or repeated, and whatever the other cameras do: of two sets
      emitted in turn while the camera stays on a source, the later one's member follows the
      earlier one's. */
  lemma {:induction false} MembersMoveForward(
      config: Config, pruning: bool, size: nat, runId: string, before: seq<Input>, inputs: seq<Input>, d: string,
      source: SourceIdentity, i: nat, j: nat)
    requires d in config.cameras && Stretch(config, pruning, Initial(size, runId), before, inputs, d, source)
    requires |Run(config, pruning, Initial(size, runId), before).emitted| <= i < j
    requires j < |Run(config, pruning, Initial(size, runId), before + inputs).emitted|
    ensures var sets := Run(config, pruning, Initial(size, runId), before + inputs).emitted;
            d in sets[i].frames && d in sets[j].frames ==> Follows(sets[i].frames[d], sets[j].frames[d])
  {
    hide *;
    StretchChain(config, pruning, size, runId, before, inputs, d, source);
    RunsOn(config, pruning, Initial(size, runId), before, inputs);
    var first := Run(config, pruning, Initial(size, runId), before);
    var sets := Run(config, pruning, first.state, inputs).emitted;
    var k, l := i - |first.emitted|, j - |first.emitted|;
    if d in sets[k].frames && d in sets[l].frames {
      ChainOfSets(sets, d, k, l);
    }
  }

  /** A set has one member per expected camera, and the identity its members resolve to. */
  ghost predicate WellFormed(config: Config, emitted: FrameSet)
  {
    Emits(config, emitted.frames, emitted.identity)
  }

  lemma EmittedByAttempt(config: Config, state: SyncState, input: Input)
    requires config.cameras != [] && Attempt(config, state, input).emitted.Some?
    ensures WellFormed(config, Attempt(config, state, input).emitted.value)
  {
    hide Best, Resolve, ManifestOf, Attempt;
    var best := Best(config, state);
    if best.None? || Resolve(Members(config.cameras, best.value)).ScopeConflict? {
      AttemptMisses(config, state, input);
    } else {
      AttemptEmits(config, state, input, best.value, Resolve(Members(config.cameras, best.value)).identity);
    }
  }

  lemma EmittedByStep(config: Config, pruning: bool, state: SyncState, input: Input)
    requires HandleFrame(config, pruning, state, input).emitted.Some?
    ensures WellFormed(config, HandleFrame(config, pruning, state, input).emitted.value)
  {
    hide Attempt, WellFormed, Prune;
    EmittedByAttempt(config, state.(buffers := state.buffers.AddFrame(Stored(input.frame))), input);
  }

  lemma {:induction false} EmittedByRun(config: Config, pruning: bool, state: SyncState, inputs: seq<Input>, i: nat)
    requires i < |Run(config, pruning, state, inputs).emitted|
    ensures WellFormed(config, Run(config, pruning, state, inputs).emitted[i])
    decreases |inputs|
  {
    hide HandleFrame, WellFormed;
    var step := HandleFrame(config, pruning, state, inputs[0]);
    if i < |AsSeq(step.emitted)| {
      EmittedByStep(config, pruning, state, inputs[0]);
    } else {
      EmittedByRun(config, pruning, step.state, inputs[1..], i - |AsSeq(step.emitted)|);
    }
  }

  /** A V2 set never repeats a camera's frame of an earlier V2 set of the stretch: its
      sequence is higher. */
  lemma {:induction false} SequencesIncrease(
      config: Config, pruning: bool, size: nat, runId: string, before: seq<Input>, inputs: seq<Input>, d: string,
      source: SourceIdentity, i: nat, j: nat)
    requires d in config.cameras && Stretch(config, pruning, Initial(size, runId), before, inputs, d, source)
    requires |Run(config, pruning, Initial(size, runId), before).emitted| <= i < j
    requires j < |Run(config, pruning, Initial(size, runId), before + inputs).emitted|
    ensures var sets := Run(config, pruning, Initial(size, runId), before + inputs).emitted;
            sets[i].identity.mode == V2 && sets[j].identity.mode == V2 ==>
              && d in sets[i].frames && d in sets[j].frames
              && sets[i].frames[d].sequence.Some? && sets[j].frames[d].sequence.Some?
              && sets[i].frames[d].sequence.value < sets[j].frames[d].sequence.value
              && sets[i].frames[d].timestampMs <= sets[j].frames[d].timestampMs
  {
    hide Run, Stretch;
    var sets := Run(config, pruning, Initial(size, runId), before + inputs).emitted;
    MembersMoveForward(config, pruning, size, runId, before, inputs, d, source, i, j);
    EmittedByRun(config, pruning, Initial(size, runId), before + inputs, i);
    EmittedByRun(config, pruning, Initial(size, runId), before + inputs, j);
    if sets[i].identity.mode == V2 && sets[j].identity.mode == V2 {
      V2MemberComplete(config.cameras, sets[i].frames, d);
      V2MemberComplete(config.cameras, sets[j].frames, d);
    }
  }

  lemma V2MemberComplete(cameras: seq<string>, frames: Selection, d: string)
    requires d in cameras && (forall e | e in cameras :: e in frames) && Members(cameras, frames) != []
    requires Resolve(Members(cameras, frames)).Resolved? && Resolve(Members(cameras, frames)).identity.mode == V2
    ensures frames[d].IdentityComplete()
  {
    var k :| 0 <= k < |cameras| && cameras[k] == d;
    assert Members(cameras, frames)[k] == frames[d];
  }
}

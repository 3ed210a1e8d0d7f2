/** No frame is lost uncounted: what was received is still buffered, was evicted, was dropped as
    stale or as superseded, or went out in a set. */
module FrameAccounts {
  import opened Wrappers
  import opened SyncModels
  import opened BufferSpec
  import opened IdentityResolution
  import opened SyncSpec
  import opened Quiescence
  import opened PruningInvisible
  import opened IndexAgreement
  import opened BufferedFrames
  import opened MarkedStates

  // ----- sums over cameras -----

  lemma {:induction false} TotalOfOne(a: BufferState, b: BufferState, devices: seq<string>, e: string)
    requires Distinct(devices) && e in devices
    requires forall d | d in devices && d != e :: |a.Frames(d)| == |b.Frames(d)|
    ensures b.FrameTotal(devices) - a.FrameTotal(devices) == |b.Frames(e)| - |a.Frames(e)|
  {
    var rest := devices[1..];
    assert Distinct(rest);
    assert forall d | d in rest :: d in devices && d != devices[0];
    if devices[0] == e {
      FrameTotalSame(a, b, rest);
    } else {
      assert e in rest;
      TotalOfOne(a, b, rest, e);
    }
  }

  // ----- storing -----

  /** Before its first frame the camera is empty; then it is on its source. */
  predicate OnSource(camera: CameraState, source: SourceIdentity)
  {
    camera.sourceIdentity == Some(source) || (camera.sourceIdentity.None? && camera.frames == [])
  }

  lemma AppendLength(camera: CameraState, frame: SyncFrame, size: nat)
    requires OnSource(camera, frame.source) && |camera.frames| <= size
    ensures |camera.Append(frame, size).frames| + (if |camera.frames| == size then 1 else 0) == |camera.frames| + 1
    ensures OnSource(camera.Append(frame, size), frame.source)
  {
    AppendedFrames(camera, frame, size);
    hide CameraState.Append;
  }

  lemma AppendedFrames(camera: CameraState, frame: SyncFrame, size: nat)
    requires OnSource(camera, frame.source)
    ensures camera.Append(frame, size).frames == Bounded(camera.frames + [frame], size)
    ensures camera.Append(frame, size).sourceIdentity == Some(frame.source)
  {
    hide Bounded;
  }

  predicate FromOwnSource(frame: SyncFrame, sources: map<string, SourceIdentity>)
  {
    frame.mode == V2 && frame.deviceId in sources && frame.source == sources[frame.deviceId]
  }

  ghost predicate AllOnSource(buffers: BufferState, sources: map<string, SourceIdentity>)
  {
    forall d | d in sources :: OnSource(buffers.Camera(d), sources[d])
  }

  lemma StoredLength(buffers: BufferState, frame: SyncFrame)
    requires Buffered(buffers) && OnSource(buffers.Camera(frame.deviceId), frame.source) && buffers.Accepts(frame)
    ensures var after, e := buffers.AddFrame(frame), frame.deviceId;
            && |after.Frames(e)| + (if |buffers.Frames(e)| == buffers.size then 1 else 0) == |buffers.Frames(e)| + 1
            && OnSource(after.Camera(e), frame.source)
  {
    AddedCamera(buffers, frame, frame.deviceId);
    assert CameraBuffered(buffers.Camera(frame.deviceId), buffers.index, buffers.size);
    AppendLength(buffers.Camera(frame.deviceId), frame, buffers.size);
    hide BufferState.AddFrame, CameraState.Append, Trim;
  }

  /** A stored frame joins a buffer or pushes another one out. */
  lemma AddAccounts(buffers: BufferState, frame: SyncFrame, devices: seq<string>)
    requires Buffered(buffers) && OnSource(buffers.Camera(frame.deviceId), frame.source)
    requires Distinct(devices) && frame.deviceId in devices
    ensures var after, accepts := buffers.AddFrame(frame), buffers.Accepts(frame);
            && after.FrameTotal(devices) + after.evictedCount
               == buffers.FrameTotal(devices) + buffers.evictedCount + (if accepts then 1 else 0)
            && after.receivedCount == buffers.receivedCount + (if accepts then 1 else 0)
  {
    var after := buffers.AddFrame(frame);
    AddedCounts(buffers, frame);
    hide BufferState.AddFrame, BufferState.FrameTotal, BufferState.Accepts, Buffered, Distinct, OnSource,
      BufferState.Camera;
    forall d | d in devices && (d != frame.deviceId || !buffers.Accepts(frame))
      ensures after.Frames(d) == buffers.Frames(d)
    {
      AddedFrames(buffers, frame, d);
    }
    if buffers.Accepts(frame) {
      StoredLength(buffers, frame);
      TotalOfOne(buffers, after, devices, frame.deviceId);
    } else {
      FrameTotalSame(buffers, after, devices);
    }
  }

  lemma AddOnSource(buffers: BufferState, frame: SyncFrame, sources: map<string, SourceIdentity>)
    requires Buffered(buffers) && AllOnSource(buffers, sources) && FromOwnSource(frame, sources)
    ensures AllOnSource(buffers.AddFrame(frame), sources)
  {
    hide Buffered, OnSource, BufferState.Camera, BufferState.AddFrame;
    forall d | d in sources ensures OnSource(buffers.AddFrame(frame).Camera(d), sources[d]) {
      AddedCamera(buffers, frame, d);
      if buffers.Accepts(frame) && d == frame.deviceId { StoredLength(buffers, frame); }
    }
  }

  // ----- consuming -----

  predicate KeysDiffer(frames: seq<SyncFrame>)
  {
    forall i, j | 0 <= i < j < |frames| :: frames[i].bufferKey != frames[j].bufferKey
  }

  lemma {:induction false} NoneChosen(frames: seq<SyncFrame>, chosen: SyncFrame)
    requires forall f | f in frames :: f.bufferKey != chosen.bufferKey
    ensures |NotBefore(frames, chosen.timestampMs + 1)| + SupersededCount(frames, chosen) == |frames|
  {
    if frames != [] { NoneChosen(frames[1..], chosen); }
  }

  /** Of a buffer the emitted member, the superseded frames and the kept ones are all. */
  lemma {:induction false} OneChosen(frames: seq<SyncFrame>, chosen: SyncFrame)
    requires KeysDiffer(frames) && chosen in frames
    ensures |NotBefore(frames, chosen.timestampMs + 1)| + SupersededCount(frames, chosen) + 1 == |frames|
  {
    var rest := frames[1..];
    assert KeysDiffer(rest);
    if frames[0] == chosen {
      NoneChosen(rest, chosen);
    } else {
      assert chosen in rest;
      OneChosen(rest, chosen);
      var i :| 0 <= i < |rest| && rest[i] == chosen;
      assert frames[i + 1] == chosen;
    }
  }

  lemma BufferKeysDiffer(buffers: BufferState, d: string)
    requires Agrees(buffers) && Buffered(buffers)
    ensures KeysDiffer(buffers.Frames(d))
  {
    assert CameraIndexed(buffers.Camera(d), d, buffers.index, buffers.size);
    assert CameraBuffered(buffers.Camera(d), buffers.index, buffers.size);
  }

  lemma TotalFirst(buffers: BufferState, devices: seq<string>)
    requires devices != []
    ensures buffers.FrameTotal(devices) == |buffers.Frames(devices[0])| + buffers.FrameTotal(devices[1..])
  {
  }

  lemma SupersededFirst(buffers: BufferState, devices: seq<string>, selected: Selection)
    requires devices != [] && forall d | d in devices :: d in selected
    ensures buffers.SupersededTotal(devices, selected)
            == SupersededCount(buffers.Frames(devices[0]), selected[devices[0]])
               + buffers.SupersededTotal(devices[1..], selected)
  {
  }

  lemma ConsumeOne(buffers: BufferState, selected: Selection, d: string)
    requires Agrees(buffers) && Buffered(buffers) && d in selected && selected[d] in buffers.Frames(d)
    ensures |buffers.ConsumeThrough(selected).Frames(d)| + SupersededCount(buffers.Frames(d), selected[d]) + 1
            == |buffers.Frames(d)|
  {
    hide *;
    ConsumedFrames(buffers, selected, d);
    BufferKeysDiffer(buffers, d);
    OneChosen(buffers.Frames(d), selected[d]);
  }

  lemma {:induction false} ConsumeAccounts(buffers: BufferState, selected: Selection, devices: seq<string>)
    requires Agrees(buffers) && Buffered(buffers)
    requires forall d | d in devices :: d in selected && selected[d] in buffers.Frames(d)
    ensures buffers.FrameTotal(devices)
            == buffers.ConsumeThrough(selected).FrameTotal(devices) + buffers.SupersededTotal(devices, selected)
               + |devices|
    decreases |devices|
  {
    if devices != [] {
      var d := devices[0];
      TotalFirst(buffers, devices);
      TotalFirst(buffers.ConsumeThrough(selected), devices);
      SupersededFirst(buffers, devices, selected);
      hide *;
      ConsumeOne(buffers, selected, d);
      assert forall e | e in devices[1..] :: e in devices;
      ConsumeAccounts(buffers, selected, devices[1..]);
    }
  }

  lemma ConsumeOthers(buffers: BufferState, selected: Selection, devices: seq<string>)
    requires forall d | d in devices :: d !in selected
    ensures buffers.ConsumeThrough(selected).FrameTotal(devices) == buffers.FrameTotal(devices)
  {
    hide BufferState.ConsumeThrough, BufferState.Frames;
    forall d | d in devices ensures buffers.ConsumeThrough(selected).Frames(d) == buffers.Frames(d) {
      ConsumedFrames(buffers, selected, d);
    }
    FrameTotalSame(buffers, buffers.ConsumeThrough(selected), devices);
  }

  lemma PruneOthers(config: Config, pruning: bool, buffers: BufferState, devices: seq<string>)
    requires config.cameras != [] && forall d | d in devices :: d !in config.cameras
    ensures PrunedBuffers(config, pruning, buffers).FrameTotal(devices) == buffers.FrameTotal(devices)
  {
    if pruning && AllSeen(buffers, config.cameras) {
      var cutoff := Watermark(buffers, config.cameras) - config.windowMs;
      forall d | d in devices ensures buffers.KeepFrom(config.cameras, cutoff).Frames(d) == buffers.Frames(d) {
        KeptFrames(buffers, config.cameras, cutoff, d);
      }
      FrameTotalSame(buffers, buffers.KeepFrom(config.cameras, cutoff), devices);
    }
  }

  // ----- the account -----

  /** How many frames go out in the sets. */
  function Sent(cameras: seq<string>, sets: nat): nat
  {
    |cameras| * sets
  }

  lemma SentMore(cameras: seq<string>, a: nat, b: nat)
    ensures Sent(cameras, a + b) == Sent(cameras, a) + Sent(cameras, b)
    ensures Sent(cameras, 0) == 0
  {
  }

  /** What the cameras, the others and the counters account for. */
  function Accounted(config: Config, others: seq<string>, state: SyncState): int
  {
    state.buffers.FrameTotal(config.cameras) + state.buffers.FrameTotal(others) + state.buffers.evictedCount
    + state.matcher.droppedStaleCount + state.matcher.droppedSupersededCount
  }

  lemma EmitAccounts(
      config: Config, others: seq<string>, state: SyncState, frames: Selection, identity: CaptureIdentity, input: Input)
    requires Agrees(state.buffers) && Buffered(state.buffers) && frames != map[]
    requires forall d :: d in config.cameras <==> d in frames
    requires forall d | d in config.cameras :: frames[d] in state.buffers.Frames(d)
    requires forall d | d in others :: d !in config.cameras
    ensures var out := Emit(config, state, frames, identity, input);
            && out.emitted.Some?
            && Accounted(config, others, out.state) + Sent(config.cameras, 1) == Accounted(config, others, state)
            && out.state.buffers.receivedCount == state.buffers.receivedCount
  {
    ConsumeAccounts(state.buffers, frames, config.cameras);
    ConsumeOthers(state.buffers, frames, others);
    assert state.buffers.ConsumeThrough(frames).(cameras := map[]) == state.buffers.(cameras := map[]);
    hide Agrees, Buffered, BufferState.ConsumeThrough, BufferState.FrameTotal, BufferState.SupersededTotal, FrameSetOf,
      ForIdentity;
    IdentityKeepsCounts(state.matcher, identity, input.freshRunId);
  }

  lemma IdentityKeepsCounts(m: MatcherState, identity: CaptureIdentity, run: string)
    ensures var after := ForIdentity(m, identity, run);
            && after.droppedStaleCount == m.droppedStaleCount
            && after.droppedSupersededCount == m.droppedSupersededCount
  {
  }

  lemma AttemptAccounts(config: Config, others: seq<string>, state: SyncState, input: Input)
    requires Agrees(state.buffers) && Buffered(state.buffers) && config.cameras != []
    requires forall d | d in others :: d !in config.cameras
    ensures var out := Attempt(config, state, input);
            && Accounted(config, others, out.state) + Sent(config.cameras, |AsSeq(out.emitted)|)
               == Accounted(config, others, state)
            && out.state.buffers.receivedCount == state.buffers.receivedCount
  {
    hide Attempt, Best, Resolve, Emit, Agrees, Buffered, BufferState.FrameTotal, BufferState.Frames, Held;
    var best := Best(config, state);
    SentMore(config.cameras, 0, 0);
    if best.None? || Resolve(Members(config.cameras, best.value)).ScopeConflict? {
      AttemptMisses(config, state, input);
    } else {
      var identity := Resolve(Members(config.cameras, best.value)).identity;
      AttemptEmits(config, state, input, best.value, identity);
      BestIsHeld(config, state);
      EmitAccounts(config, others, state, best.value, identity, input);
    }
  }

  lemma BestIsHeld(config: Config, state: SyncState)
    requires config.cameras != [] && Best(config, state).Some?
    ensures forall d | d in config.cameras ::
              d in Best(config, state).value && Best(config, state).value[d] in state.buffers.Frames(d)
  {
    hide Best, BufferState.Frames;
    BestIsOptimal(config, state);
    forall d | d in config.cameras
      ensures d in Best(config, state).value && Best(config, state).value[d] in state.buffers.Frames(d)
    {
      assert d in Held(state.buffers, config.cameras);
    }
  }

  lemma PruneAccounts(config: Config, pruning: bool, others: seq<string>, state: SyncState)
    requires config.cameras != [] && forall d | d in others :: d !in config.cameras
    ensures Accounted(config, others, Prune(config, pruning, state)) == Accounted(config, others, state)
    ensures Prune(config, pruning, state).buffers.receivedCount == state.buffers.receivedCount
  {
    PruneOthers(config, pruning, state.buffers, others);
    assert PrunedBuffers(config, pruning, state.buffers).(cameras := map[]) == state.buffers.(cameras := map[]);
    hide PrunedBuffers, BufferState.FrameTotal;
  }

  /** What a step keeps: the cameras' invariants, and the account. */
  ghost predicate InOrder(state: SyncState, sources: map<string, SourceIdentity>)
  {
    Agrees(state.buffers) && Buffered(state.buffers) && AllOnSource(state.buffers, sources)
  }

  lemma {:induction false} StepAccounts(
      config: Config, pruning: bool, others: seq<string>, sources: map<string, SourceIdentity>, state: SyncState,
      input: Input)
    requires config.cameras != [] && Distinct(config.cameras + others) && InOrder(state, sources)
    requires FromOwnSource(input.frame, sources) && input.frame.deviceId in config.cameras + others
    ensures var step := HandleFrame(config, pruning, state, input);
            && Accounted(config, others, step.state) - step.state.buffers.receivedCount
               + Sent(config.cameras, |AsSeq(step.emitted)|)
               == Accounted(config, others, state) - state.buffers.receivedCount
            && InOrder(step.state, sources)
  {
    var frame := Stored(input.frame);
    assert frame.deviceId == input.frame.deviceId && frame.source == input.frame.source && frame.mode == V2;
    var added := state.(buffers := state.buffers.AddFrame(frame));
    StepInOrder(config, pruning, sources, state, input);
    AddedInOrder(sources, state, frame);
    DisjointOthers(config.cameras, others);
    AddBoth(config, others, state, frame, sources);
    SentMore(config.cameras, 0, 0);
    hide Agrees, Buffered, AllOnSource, Attempt, Accounted, Prune, BufferState.AddFrame, BufferState.Accepts, Stored,
      Distinct, Sent;
    if state.buffers.Accepts(frame) && frame.deviceId in config.cameras {
      AttemptAccounts(config, others, added, input);
      PruneAccounts(config, pruning, others, Attempt(config, added, input).state);
    } else {
      IgnoredAccounts(config, others, added);
    }
  }

  lemma IgnoredAccounts(config: Config, others: seq<string>, state: SyncState)
    ensures var ignored := state.(matcher := state.matcher.(ignoredCount := state.matcher.ignoredCount + 1));
            Accounted(config, others, ignored) == Accounted(config, others, state)
  {
  }

  lemma DisjointOthers(cameras: seq<string>, others: seq<string>)
    requires Distinct(cameras + others)
    ensures Distinct(cameras) && Distinct(others) && forall d | d in others :: d !in cameras
  {
    var all := cameras + others;
    forall i, j | 0 <= i < |cameras| && 0 <= j < |others| ensures cameras[i] != others[j] {
      assert all[i] == cameras[i] && all[|cameras| + j] == others[j];
    }
    forall i, j | 0 <= i < j < |others| ensures others[i] != others[j] {
      assert all[|cameras| + i] == others[i] && all[|cameras| + j] == others[j];
    }
    forall i, j | 0 <= i < j < |cameras| ensures cameras[i] != cameras[j] {
      assert all[i] == cameras[i] && all[j] == cameras[j];
    }
  }

  lemma AddedInOrder(sources: map<string, SourceIdentity>, state: SyncState, frame: SyncFrame)
    requires InOrder(state, sources) && FromOwnSource(frame, sources)
    ensures InOrder(state.(buffers := state.buffers.AddFrame(frame)), sources)
  {
    hide Agrees, Buffered, AllOnSource, BufferState.AddFrame;
    AgreesAfterAdd(state.buffers, frame);
    BufferedAfterAdd(state.buffers, frame);
    AddOnSource(state.buffers, frame, sources);
  }

  lemma StepInOrder(
      config: Config, pruning: bool, sources: map<string, SourceIdentity>, state: SyncState, input: Input)
    requires InOrder(state, sources) && FromOwnSource(input.frame, sources)
    ensures InOrder(HandleFrame(config, pruning, state, input).state, sources)
  {
    var frame := Stored(input.frame);
    assert FromOwnSource(frame, sources);
    var after := HandleFrame(config, pruning, state, input).state;
    hide HandleFrame, Agrees, Buffered, OnSource, BufferState.AddFrame, Stored, Thinned, BufferState.Camera;
    BufferedAfterStep(config, pruning, state, input);
    AgreesAfterAdd(state.buffers, frame);
    StepKeepsIndex(config, pruning, state, input);
    SameKeysAgree(state.buffers.AddFrame(frame), after.buffers);
    AddOnSource(state.buffers, frame, sources);
    forall d | d in sources ensures OnSource(after.buffers.Camera(d), sources[d]) {
      StepThins(config, pruning, state, input, d);
      ThinnedOnSource(state.buffers.AddFrame(frame).Camera(d), after.buffers.Camera(d), sources[d]);
    }
  }

  lemma ThinnedOnSource(before: CameraState, after: CameraState, source: SourceIdentity)
    requires OnSource(before, source) && Thinned(before, after)
    ensures OnSource(after, source)
  {
  }

  lemma AddBoth(
      config: Config, others: seq<string>, state: SyncState, frame: SyncFrame, sources: map<string, SourceIdentity>)
    requires Distinct(config.cameras) && Distinct(others) && (forall d | d in others :: d !in config.cameras)
    requires frame.deviceId in config.cameras + others && FromOwnSource(frame, sources) && InOrder(state, sources)
    ensures var added := state.(buffers := state.buffers.AddFrame(frame));
            Accounted(config, others, added) - added.buffers.receivedCount
            == Accounted(config, others, state) - state.buffers.receivedCount
  {
    var after := state.buffers.AddFrame(frame);
    assert OnSource(state.buffers.Camera(frame.deviceId), frame.source);
    hide BufferState.AddFrame, BufferState.FrameTotal, Buffered, Agrees, AllOnSource, Distinct, BufferState.Frames,
      OnSource;
    var (own, rest) := if frame.deviceId in config.cameras then (config.cameras, others) else (others, config.cameras);
    AddAccounts(state.buffers, frame, own);
    forall d | d in rest ensures after.Frames(d) == state.buffers.Frames(d) {
      AddedFrames(state.buffers, frame, d);
    }
    FrameTotalSame(state.buffers, after, rest);
  }

  lemma RunNothing(config: Config, pruning: bool, state: SyncState)
    ensures Run(config, pruning, state, []) == RunResult(state, [])
  {
  }

  lemma RunFirst(config: Config, pruning: bool, state: SyncState, inputs: seq<Input>)
    requires inputs != []
    ensures var step, run := HandleFrame(config, pruning, state, inputs[0]), Run(config, pruning, state, inputs);
            var rest := Run(config, pruning, step.state, inputs[1..]);
            run.state == rest.state && |run.emitted| == |AsSeq(step.emitted)| + |rest.emitted|
  {
    hide HandleFrame;
  }

  /** Every frame is a V2 frame of one of the devices and of that device's source. */
  predicate AllOwn(inputs: seq<Input>, devices: seq<string>, sources: map<string, SourceIdentity>)
  {
    forall i | 0 <= i < |inputs| ::
      FromOwnSource(inputs[i].frame, sources) && inputs[i].frame.deviceId in devices
  }

  lemma OwnRest(inputs: seq<Input>, devices: seq<string>, sources: map<string, SourceIdentity>)
    requires inputs != [] && AllOwn(inputs, devices, sources)
    ensures FromOwnSource(inputs[0].frame, sources) && inputs[0].frame.deviceId in devices
    ensures AllOwn(inputs[1..], devices, sources)
  {
  }

  lemma {:induction false} RunAccounts(
      config: Config, pruning: bool, others: seq<string>, sources: map<string, SourceIdentity>, state: SyncState,
      inputs: seq<Input>)
    requires config.cameras != [] && Distinct(config.cameras + others) && InOrder(state, sources)
    requires AllOwn(inputs, config.cameras + others, sources)
    ensures var run := Run(config, pruning, state, inputs);
            Accounted(config, others, run.state) - run.state.buffers.receivedCount
            + Sent(config.cameras, |run.emitted|)
            == Accounted(config, others, state) - state.buffers.receivedCount
    decreases |inputs|
  {
    hide *;
    SentMore(config.cameras, 0, 0);
    if inputs == [] {
      RunNothing(config, pruning, state);
    } else {
      OwnRest(inputs, config.cameras + others, sources);
      RunFirst(config, pruning, state, inputs);
      var step := HandleFrame(config, pruning, state, inputs[0]);
      var rest := Run(config, pruning, step.state, inputs[1..]);
      StepAccounts(config, pruning, others, sources, state, inputs[0]);
      RunAccounts(config, pruning, others, sources, step.state, inputs[1..]);
      SentMore(config.cameras, |AsSeq(step.emitted)|, |rest.emitted|);
    }
  }

  /** In every run of V2 frames in which each camera stays on its source: the received frames are
      those still buffered, those evicted, stale and superseded, and one per camera and set. */
  lemma {:induction false} FramesAreAccountedFor(
      config: Config, pruning: bool, size: nat, runId: string, others: seq<string>,
      sources: map<string, SourceIdentity>, inputs: seq<Input>)
    requires size >= 1 && config.cameras != [] && Distinct(config.cameras + others)
    requires AllOwn(inputs, config.cameras + others, sources)
    ensures var run := Run(config, pruning, Initial(size, runId), inputs);
            var b, m := run.state.buffers, run.state.matcher;
            b.receivedCount
            == b.FrameTotal(config.cameras) + b.FrameTotal(others) + b.evictedCount + m.droppedStaleCount
               + m.droppedSupersededCount + |config.cameras| * |run.emitted|
  {
    var start := Initial(size, runId);
    InitiallyBuffered(size);
    assert InOrder(start, sources);
    NothingBuffered(size, config.cameras);
    NothingBuffered(size, others);
    hide Run, InOrder, BufferState.FrameTotal, Distinct, FromOwnSource, AllOwn;
    RunAccounts(config, pruning, others, sources, start, inputs);
  }

  lemma {:induction false} NothingBuffered(size: nat, devices: seq<string>)
    ensures EmptyBuffers(size).FrameTotal(devices) == 0
  {
    if devices != [] { NothingBuffered(size, devices[1..]); }
  }
}

/** Dropping stale frames never shows: with and without it the same frame sets come out,
    in the same order. Each pruned buffer stays the recent part of the unpruned one. */
module PruningInvisible {
  import opened Wrappers
  import opened SyncModels
  import opened BufferSpec
  import opened FrameOrder
  import opened MinSpanSweep
  import opened IdentityResolution
  import opened SyncSpec
  import opened Quiescence

  // ----- the simulation relation -----

  function Shadow(camera: CameraState, cutoff: Option<int>): CameraState
  {
    if cutoff.Some? then camera.KeepFrom(cutoff.value) else camera
  }

  /** `pruned` holds what `full` holds, except frames of the given cameras before the cutoff. */
  ghost predicate Shadows(cameras: seq<string>, full: BufferState, pruned: BufferState, cutoff: Option<int>)
  {
    && pruned.size == full.size
    && pruned.index == full.index
    && forall d :: pruned.Camera(d) == if d in cameras then Shadow(full.Camera(d), cutoff) else full.Camera(d)
  }

  function CutoffOf(config: Config, buffers: BufferState): Option<int>
    requires config.cameras != []
  {
    if AllSeen(buffers, config.cameras) then Some(Watermark(buffers, config.cameras) - config.windowMs) else None
  }

  /** A buffer whose clock has not gone back. */
  ghost predicate Steady(camera: CameraState, size: nat)
  {
    && |camera.frames| <= size
    && Ascending(camera.frames)
    && forall f | f in camera.frames :: camera.lastTimestampMs.Some? && f.timestampMs <= camera.lastTimestampMs.value
  }

  ghost predicate AllSteady(cameras: seq<string>, buffers: BufferState)
  {
    buffers.size >= 1 && forall d | d in cameras :: Steady(buffers.Camera(d), buffers.size)
  }

  /** The arriving frame, if stored, is not older than its camera's last one. */
  predicate NoRewind(cameras: seq<string>, buffers: BufferState, frame: SyncFrame)
  {
    var last := buffers.Camera(frame.deviceId).lastTimestampMs;
    buffers.Accepts(frame) && frame.deviceId in cameras && last.Some? ==> frame.timestampMs >= last.value
  }

  // ----- storing -----

  lemma BoundedNotBefore(frames: seq<SyncFrame>, frame: SyncFrame, size: nat, cutoffMs: int)
    requires size >= 1 && |frames| <= size && Ascending(frames) && frame.timestampMs >= cutoffMs
    ensures NotBefore(Bounded(frames + [frame], size), cutoffMs) == Bounded(NotBefore(frames, cutoffMs) + [frame], size)
  {
    NotBeforeAppend(frames, [frame], cutoffMs);
    assert NotBefore([frame], cutoffMs) == [frame];
    if |frames| == size {
      assert frames + [frame] == [frames[0]] + (frames[1..] + [frame]);
      assert Bounded(frames + [frame], size) == frames[1..] + [frame];
      NotBeforeAppend(frames[1..], [frame], cutoffMs);
      if frames[0].timestampMs >= cutoffMs {
        forall f | f in frames ensures f.timestampMs >= cutoffMs {
          var i :| 0 <= i < |frames| && frames[i] == f;
        }
        NotBeforeKeepsAll(frames, cutoffMs);
      }
    }
  }

  lemma AppendKeptFrames(camera: CameraState, frame: SyncFrame, size: nat, cutoffMs: int)
    requires size >= 1 && Steady(camera, size) && frame.timestampMs >= cutoffMs
    ensures camera.KeepFrom(cutoffMs).Append(frame, size).frames
            == NotBefore(camera.Append(frame, size).frames, cutoffMs)
  {
    var frames := camera.ForSource(frame.source).frames;
    BoundedNotBefore(frames, frame, size, cutoffMs);
    assert camera.KeepFrom(cutoffMs).ForSource(frame.source).frames == NotBefore(frames, cutoffMs);
  }

  lemma AppendShadow(camera: CameraState, frame: SyncFrame, size: nat, cutoff: Option<int>)
    requires size >= 1 && Steady(camera, size) && (cutoff.Some? ==> frame.timestampMs >= cutoff.value)
    ensures Shadow(camera, cutoff).Append(frame, size) == Shadow(camera.Append(frame, size), cutoff)
  {
    if cutoff.Some? {
      AppendKeptFrames(camera, frame, size, cutoff.value);
      hide NotBefore, Steady, Bounded;
      var a, b := camera.KeepFrom(cutoff.value).Append(frame, size), camera.Append(frame, size).KeepFrom(cutoff.value);
      assert a.(frames := []) == b.(frames := []);
      assert a == b;
    }
  }

  /** What storing does to one camera. */
  lemma AddedCamera(buffers: BufferState, frame: SyncFrame, d: string)
    ensures buffers.AddFrame(frame).size == buffers.size
    ensures !buffers.Accepts(frame) || d != frame.deviceId ==> buffers.AddFrame(frame).Camera(d) == buffers.Camera(d)
    ensures buffers.Accepts(frame) ==>
      var camera := buffers.Camera(frame.deviceId);
      var (keys, indexed) := Trim(camera.retainedKeys + [frame.bufferKey], buffers.index[frame.bufferKey := frame],
          buffers.size);
      && buffers.AddFrame(frame).index == indexed
      && buffers.AddFrame(frame).Camera(frame.deviceId) == camera.Append(frame, buffers.size).(retainedKeys := keys)
    ensures !buffers.Accepts(frame) ==> buffers.AddFrame(frame).index == buffers.index
  {
  }

  lemma ShadowSameAcceptance(
      cameras: seq<string>, full: BufferState, pruned: BufferState, cutoff: Option<int>, frame: SyncFrame)
    requires Shadows(cameras, full, pruned, cutoff)
    ensures pruned.Accepts(frame) <==> full.Accepts(frame)
  {
    assert pruned.Camera(frame.deviceId).IsOutOfOrder(frame) == full.Camera(frame.deviceId).IsOutOfOrder(frame);
  }

  lemma ShadowAfterAdd(
      cameras: seq<string>, full: BufferState, pruned: BufferState, cutoff: Option<int>, frame: SyncFrame)
    requires Shadows(cameras, full, pruned, cutoff) && AllSteady(cameras, full)
    requires full.Accepts(frame) && frame.deviceId in cameras && cutoff.Some? ==> frame.timestampMs >= cutoff.value
    ensures Shadows(cameras, full.AddFrame(frame), pruned.AddFrame(frame), cutoff)
  {
    ShadowSameAcceptance(cameras, full, pruned, cutoff, frame);
    AddedCamera(full, frame, frame.deviceId);
    AddedCamera(pruned, frame, frame.deviceId);
    forall d ensures pruned.AddFrame(frame).Camera(d)
      == if d in cameras then Shadow(full.AddFrame(frame).Camera(d), cutoff) else full.AddFrame(frame).Camera(d)
    {
      AddedCamera(full, frame, d);
      AddedCamera(pruned, frame, d);
      if full.Accepts(frame) && d == frame.deviceId && d in cameras {
        AppendShadow(full.Camera(d), frame, full.size, cutoff);
      }
    }
  }

  lemma SteadyAfterAdd(cameras: seq<string>, buffers: BufferState, frame: SyncFrame)
    requires AllSteady(cameras, buffers) && NoRewind(cameras, buffers, frame)
    ensures AllSteady(cameras, buffers.AddFrame(frame))
  {
    AddedCamera(buffers, frame, frame.deviceId);
    forall d | d in cameras ensures Steady(buffers.AddFrame(frame).Camera(d), buffers.size) {
      AddedCamera(buffers, frame, d);
      if buffers.Accepts(frame) && d == frame.deviceId {
        SteadyAppend(buffers.Camera(d), frame, buffers.size);
      }
    }
  }

  lemma SteadyAppend(camera: CameraState, frame: SyncFrame, size: nat)
    requires size >= 1 && Steady(camera, size)
    requires camera.lastTimestampMs.Some? ==> frame.timestampMs >= camera.lastTimestampMs.value
    ensures Steady(camera.Append(frame, size), size)
  {
    var frames := camera.ForSource(frame.source).frames;
    assert camera.Append(frame, size).frames == Bounded(frames + [frame], size);
    AscendingAppend(frames, frame, size);
  }

  lemma AscendingAppend(frames: seq<SyncFrame>, frame: SyncFrame, size: nat)
    requires Ascending(frames) && forall f | f in frames :: f.timestampMs <= frame.timestampMs
    ensures Ascending(Bounded(frames + [frame], size))
    ensures forall f | f in Bounded(frames + [frame], size) :: f.timestampMs <= frame.timestampMs
  {
    var grown := frames + [frame];
    assert forall i | 0 <= i < |frames| :: grown[i] in frames;
    assert Ascending(grown);
    assert forall f | f in Bounded(grown, size) :: f in grown;
  }

  // ----- consuming and pruning -----

  lemma ConsumedCamera(buffers: BufferState, selected: Selection, d: string)
    ensures buffers.ConsumeThrough(selected).Camera(d)
            == if d in selected then buffers.Camera(d).KeepFrom(selected[d].timestampMs + 1) else buffers.Camera(d)
  {
  }

  lemma KeptCamera(buffers: BufferState, cameras: seq<string>, cutoffMs: int, d: string)
    ensures buffers.KeepFrom(cameras, cutoffMs).Camera(d)
            == if d in cameras then buffers.Camera(d).KeepFrom(cutoffMs) else buffers.Camera(d)
  {
  }

  lemma KeepFromShadow(camera: CameraState, cutoffMs: int, cutoff: Option<int>)
    ensures Shadow(camera, cutoff).KeepFrom(cutoffMs) == Shadow(camera.KeepFrom(cutoffMs), cutoff)
    ensures (cutoff.Some? ==> cutoff.value <= cutoffMs) ==>
            Shadow(camera, cutoff).KeepFrom(cutoffMs) == Shadow(camera, Some(cutoffMs))
  {
    if cutoff.Some? {
      NotBeforeTwice(camera.frames, cutoff.value, cutoffMs);
      NotBeforeTwice(camera.frames, cutoffMs, cutoff.value);
    }
  }

  lemma ShadowAfterConsume(
      cameras: seq<string>, full: BufferState, pruned: BufferState, cutoff: Option<int>, selected: Selection)
    requires Shadows(cameras, full, pruned, cutoff)
    ensures Shadows(cameras, full.ConsumeThrough(selected), pruned.ConsumeThrough(selected), cutoff)
  {
    forall d ensures pruned.ConsumeThrough(selected).Camera(d)
      == if d in cameras then Shadow(full.ConsumeThrough(selected).Camera(d), cutoff)
          else full.ConsumeThrough(selected).Camera(d)
    {
      ConsumedCamera(full, selected, d);
      ConsumedCamera(pruned, selected, d);
      if d in selected {
        KeepFromShadow(full.Camera(d), selected[d].timestampMs + 1, cutoff);
      }
    }
  }

  lemma ShadowAfterKeep(
      cameras: seq<string>, full: BufferState, pruned: BufferState, cutoff: Option<int>, cutoffMs: int)
    requires Shadows(cameras, full, pruned, cutoff) && (cutoff.Some? ==> cutoff.value <= cutoffMs)
    ensures Shadows(cameras, full, pruned.KeepFrom(cameras, cutoffMs), Some(cutoffMs))
  {
    forall d ensures pruned.KeepFrom(cameras, cutoffMs).Camera(d)
      == if d in cameras then Shadow(full.Camera(d), Some(cutoffMs)) else full.Camera(d)
    {
      KeptCamera(pruned, cameras, cutoffMs, d);
      if d in cameras {
        KeepFromShadow(full.Camera(d), cutoffMs, cutoff);
      }
    }
  }

  lemma {:induction false} WatermarkGrows(before: BufferState, after: BufferState, cameras: seq<string>)
    requires cameras != [] && AllSeen(before, cameras)
    requires forall d | d in cameras ::
      var last := after.Camera(d).lastTimestampMs;
      last.Some? && before.Camera(d).lastTimestampMs.value <= last.value
    ensures AllSeen(after, cameras) && Watermark(before, cameras) <= Watermark(after, cameras)
  {
    if |cameras| > 1 {
      WatermarkGrows(before, after, cameras[1..]);
    }
  }

  lemma ShadowSameCutoff(config: Config, full: BufferState, pruned: BufferState, cutoff: Option<int>)
    requires config.cameras != [] && Shadows(config.cameras, full, pruned, cutoff)
    ensures CutoffOf(config, full) == CutoffOf(config, pruned)
  {
    assert forall d | d in config.cameras :: pruned.Camera(d).lastTimestampMs == full.Camera(d).lastTimestampMs;
    if AllSeen(full, config.cameras) {
      WatermarkGrows(full, pruned, config.cameras);
      WatermarkGrows(pruned, full, config.cameras);
    }
  }

  /** Pruning brings the pruned buffers up to the current cutoff. */
  lemma ShadowAfterPrune(config: Config, full: BufferState, pruned: BufferState, cutoff: Option<int>)
    requires config.cameras != [] && Shadows(config.cameras, full, pruned, cutoff)
    requires cutoff.Some? ==> CutoffOf(config, full).Some? && cutoff.value <= CutoffOf(config, full).value
    ensures Shadows(config.cameras, full, WithoutStale(config, pruned), CutoffOf(config, full))
  {
    ShadowSameCutoff(config, full, pruned, cutoff);
    if AllSeen(pruned, config.cameras) {
      ShadowAfterKeep(config.cameras, full, pruned, cutoff, CutoffOf(config, pruned).value);
    }
  }

  // ----- the candidate is the same -----

  lemma OfferShadow(cameras: seq<string>, full: BufferState, pruned: BufferState, cutoff: Option<int>)
    requires Shadows(cameras, full, pruned, cutoff)
    ensures Offer(pruned, cameras)
            == if cutoff.Some? then Kept(Offer(full, cameras), cutoff.value) else Offer(full, cameras)
  {
    if cutoff.Some? {
      var kept := Kept(Offer(full, cameras), cutoff.value);
      forall d | d in cameras ensures Offer(pruned, cameras)[d] == kept[d] {
        SortNotBefore(full.Frames(d), cutoff.value);
        assert pruned.Frames(d) == NotBefore(full.Frames(d), cutoff.value);
      }
      assert Offer(pruned, cameras).Keys == kept.Keys;
    } else {
      forall d | d in cameras ensures Offer(pruned, cameras)[d] == Offer(full, cameras)[d] {
        assert pruned.Frames(d) == full.Frames(d);
      }
    }
  }

  /** Whatever fits uses the arriving frame, so it starts no earlier than the cutoff. */
  lemma FitsAreRecent(config: Config, buffers: BufferState, frame: SyncFrame, pick: Selection)
    requires config.cameras != [] && Quiescent(buffers, config.cameras, config.windowMs)
    requires NoRewind(config.cameras, buffers, frame) && CutoffOf(config, buffers).Some?
    requires Fits(Held(buffers.AddFrame(frame), config.cameras), pick, config.windowMs)
    ensures Earliest(pick) >= CutoffOf(config, buffers).value
  {
    FitUsesArrival(buffers, frame, config.cameras, pick, config.windowMs);
    WatermarkIsLeast(buffers, config.cameras, frame.deviceId);
    assert frame.deviceId in Held(buffers.AddFrame(frame), config.cameras);
    var last := LatestOf(pick);
  }

  lemma StaleOffersNeverFit(config: Config, buffers: BufferState, frame: SyncFrame)
    requires config.cameras != [] && Quiescent(buffers, config.cameras, config.windowMs)
    requires NoRewind(config.cameras, buffers, frame) && CutoffOf(config, buffers).Some?
    ensures var offer := Offer(buffers.AddFrame(frame), config.cameras);
            StaleNeverFits(offer, CutoffOf(config, buffers).value, config.windowMs)
  {
    var offer := Offer(buffers.AddFrame(frame), config.cameras);
    forall pick | pick != map[] && IsSelection(offer, pick) && Earliest(pick) < CutoffOf(config, buffers).value
      ensures Span(pick) > config.windowMs
    {
      OfferedAsHeld(buffers.AddFrame(frame), config.cameras, pick);
      if Span(pick) <= config.windowMs {
        FitsAreRecent(config, buffers, frame, pick);
      }
    }
  }

  lemma {:induction false} SameCandidate(config: Config, full: BufferState, pruned: BufferState, frame: SyncFrame)
    requires config.cameras != [] && Quiescent(full, config.cameras, config.windowMs)
    requires NoRewind(config.cameras, full, frame)
    requires Shadows(config.cameras, full.AddFrame(frame), pruned, CutoffOf(config, full))
    ensures Candidate(Offer(full.AddFrame(frame), config.cameras), config.windowMs)
            == Candidate(Offer(pruned, config.cameras), config.windowMs)
  {
    var added := full.AddFrame(frame);
    var offer := Offer(added, config.cameras);
    var cutoff := CutoffOf(config, full);
    OfferShadow(config.cameras, added, pruned, cutoff);
    OfferedAsHeld(added, config.cameras, map[]);
    if cutoff.Some? {
      StaleOffersNeverFit(config, full, frame);
      assert config.cameras[0] in offer;
      hide Offer, Shadows, CutoffOf, Quiescent, NoRewind, StaleNeverFits, InOrder;
      if Stocked(offer) {
        CandidateIgnoresStale(offer, cutoff.value, config.windowMs);
      } else {
        EmptyStaysEmpty(offer, cutoff.value);
      }
    }
  }

  lemma EmptyStaysEmpty(stock: Stock, cutoffMs: int)
    requires stock != map[] && !Stocked(stock)
    ensures !Stocked(Kept(stock, cutoffMs))
  {
    var d :| d in stock && stock[d] == [];
    assert Kept(stock, cutoffMs)[d] == [];
  }

  // ----- one step -----

  lemma CutoffGrows(config: Config, buffers: BufferState, frame: SyncFrame)
    requires config.cameras != [] && NoRewind(config.cameras, buffers, frame)
    ensures var before, after := CutoffOf(config, buffers), CutoffOf(config, buffers.AddFrame(frame));
            before.Some? ==> after.Some? && before.value <= after.value
  {
    if AllSeen(buffers, config.cameras) {
      forall d | d in config.cameras
        ensures var last := buffers.AddFrame(frame).Camera(d).lastTimestampMs;
                last.Some? && buffers.Camera(d).lastTimestampMs.value <= last.value
      {
        AddedFrames(buffers, frame, d);
        AddedCamera(buffers, frame, d);
      }
      WatermarkGrows(buffers, buffers.AddFrame(frame), config.cameras);
    }
  }

  lemma {:induction false} WatermarkSame(a: BufferState, b: BufferState, cameras: seq<string>)
    requires forall d | d in cameras :: a.Camera(d).lastTimestampMs == b.Camera(d).lastTimestampMs
    ensures AllSeen(a, cameras) == AllSeen(b, cameras)
    ensures cameras != [] && AllSeen(a, cameras) ==> Watermark(a, cameras) == Watermark(b, cameras)
  {
    if cameras != [] && AllSeen(a, cameras) {
      WatermarkGrows(a, b, cameras);
      WatermarkGrows(b, a, cameras);
    }
  }

  lemma CutoffSame(config: Config, a: BufferState, b: BufferState)
    requires config.cameras != []
    requires forall d | d in config.cameras :: a.Camera(d).lastTimestampMs == b.Camera(d).lastTimestampMs
    ensures CutoffOf(config, a) == CutoffOf(config, b)
  {
    WatermarkSame(a, b, config.cameras);
  }

  lemma CutoffAfterConsume(config: Config, buffers: BufferState, selected: Selection)
    requires config.cameras != []
    ensures CutoffOf(config, buffers.ConsumeThrough(selected)) == CutoffOf(config, buffers)
  {
    forall d | d in config.cameras
      ensures buffers.ConsumeThrough(selected).Camera(d).lastTimestampMs == buffers.Camera(d).lastTimestampMs
    {
      ConsumedCamera(buffers, selected, d);
    }
    CutoffSame(config, buffers.ConsumeThrough(selected), buffers);
  }

  lemma CutoffAfterIdleAdd(config: Config, buffers: BufferState, frame: SyncFrame)
    requires config.cameras != [] && (!buffers.Accepts(frame) || frame.deviceId !in config.cameras)
    ensures CutoffOf(config, buffers.AddFrame(frame)) == CutoffOf(config, buffers)
  {
    forall d | d in config.cameras
      ensures buffers.AddFrame(frame).Camera(d).lastTimestampMs == buffers.Camera(d).lastTimestampMs
    {
      AddedCamera(buffers, frame, d);
    }
    CutoffSame(config, buffers.AddFrame(frame), buffers);
  }

  lemma SteadyAfterConsume(cameras: seq<string>, buffers: BufferState, selected: Selection)
    requires AllSteady(cameras, buffers)
    ensures AllSteady(cameras, buffers.ConsumeThrough(selected))
  {
    forall d | d in cameras ensures Steady(buffers.ConsumeThrough(selected).Camera(d), buffers.size) {
      ConsumedCamera(buffers, selected, d);
      if d in selected {
        NotBeforeIsSuffix(buffers.Camera(d).frames, selected[d].timestampMs + 1);
        NotBeforeKeeps(buffers.Camera(d).frames, selected[d].timestampMs + 1);
      }
    }
  }

  /** The matcher without the two counters that pruning moves frames between. */
  function Essence(m: MatcherState): MatcherState
  {
    m.(droppedStaleCount := 0, droppedSupersededCount := 0)
  }

  ghost predicate Simulates(config: Config, full: SyncState, pruned: SyncState)
    requires config.cameras != []
  {
    && Quiescent(full.buffers, config.cameras, config.windowMs)
    && AllSteady(config.cameras, full.buffers)
    && Shadows(config.cameras, full.buffers, pruned.buffers, CutoffOf(config, full.buffers))
    && Essence(full.matcher) == Essence(pruned.matcher)
  }

  /** Storing the frame keeps the pruned buffers in the shadow of the full ones. */
  lemma SimulatesAdd(config: Config, full: SyncState, pruned: SyncState, frame: SyncFrame)
    requires config.cameras != [] && config.windowMs >= 0
    requires Simulates(config, full, pruned) && NoRewind(config.cameras, full.buffers, frame)
    ensures var cutoff := CutoffOf(config, full.buffers);
            Shadows(config.cameras, full.buffers.AddFrame(frame), pruned.buffers.AddFrame(frame), cutoff)
    ensures AllSteady(config.cameras, full.buffers.AddFrame(frame))
    ensures pruned.buffers.Accepts(frame) == full.buffers.Accepts(frame)
  {
    var cutoff := CutoffOf(config, full.buffers);
    if full.buffers.Accepts(frame) && frame.deviceId in config.cameras && cutoff.Some? {
      WatermarkIsLeast(full.buffers, config.cameras, frame.deviceId);
    }
    ShadowSameAcceptance(config.cameras, full.buffers, pruned.buffers, cutoff, frame);
    ShadowAfterAdd(config.cameras, full.buffers, pruned.buffers, cutoff, frame);
    SteadyAfterAdd(config.cameras, full.buffers, frame);
  }

  lemma SameNumbering(full: MatcherState, pruned: MatcherState, identity: CaptureIdentity, freshRunId: string)
    requires Essence(full) == Essence(pruned)
    ensures Essence(ForIdentity(full, identity, freshRunId)) == Essence(ForIdentity(pruned, identity, freshRunId))
  {
    var same := Rotates(full, identity) == Rotates(pruned, identity);
    assert same;
  }

  ghost predicate Emits(config: Config, frames: Selection, identity: CaptureIdentity)
  {
    && frames != map[]
    && (forall d :: d in config.cameras <==> d in frames)
    && Members(config.cameras, frames) != []
    && Resolve(Members(config.cameras, frames)) == Resolved(identity)
  }

  lemma AttemptEmits(config: Config, state: SyncState, input: Input, frames: Selection, identity: CaptureIdentity)
    requires config.cameras != [] && Best(config, state) == Some(frames) && Emits(config, frames, identity)
    ensures Attempt(config, state, input) == Emit(config, state, frames, identity, input)
  {
    hide Emit, Best, Resolve, Members;
  }

  lemma AttemptMisses(config: Config, state: SyncState, input: Input)
    requires config.cameras != []
    requires Best(config, state).None? || Resolve(Members(config.cameras, Best(config, state).value)).ScopeConflict?
    ensures Attempt(config, state, input) == Outcome(Missed(state), None)
  {
    hide Emit, Best, Resolve, Members;
  }

  lemma SameMiss(full: SyncState, pruned: SyncState)
    requires Essence(full.matcher) == Essence(pruned.matcher)
    ensures Essence(Missed(full).matcher) == Essence(Missed(pruned).matcher)
  {
  }

  lemma SameEmission(config: Config, full: SyncState, pruned: SyncState, input: Input)
    requires config.cameras != [] && Best(config, full) == Best(config, pruned)
    requires Essence(full.matcher) == Essence(pruned.matcher)
    ensures var f, p := Attempt(config, full, input), Attempt(config, pruned, input);
            && f.emitted == p.emitted
            && Essence(f.state.matcher) == Essence(p.state.matcher)
  {
    hide Attempt, Emit, Best, Resolve, Essence, Missed;
    var best := Best(config, full);
    if best.None? || Resolve(Members(config.cameras, best.value)).ScopeConflict? {
      AttemptMisses(config, full, input);
      AttemptMisses(config, pruned, input);
      SameMiss(full, pruned);
    } else {
      var identity := Resolve(Members(config.cameras, best.value)).identity;
      AttemptEmits(config, full, input, best.value, identity);
      AttemptEmits(config, pruned, input, best.value, identity);
      SameNumbering(full.matcher, pruned.matcher, identity, input.freshRunId);
      SameEmit(config, full, pruned, best.value, identity, input);
    }
  }

  lemma SameEmit(
      config: Config, full: SyncState, pruned: SyncState, frames: Selection, identity: CaptureIdentity, input: Input)
    requires frames != map[] && forall d :: d in config.cameras <==> d in frames
    requires Essence(ForIdentity(full.matcher, identity, input.freshRunId))
          == Essence(ForIdentity(pruned.matcher, identity, input.freshRunId))
    ensures var f, p := Emit(config, full, frames, identity, input), Emit(config, pruned, frames, identity, input);
            f.emitted == p.emitted && Essence(f.state.matcher) == Essence(p.state.matcher)
  {
    hide ForIdentity, ManifestOf, Span, Latest, SetArchiveState, SetArchiveErrors, Bounded;
    hide BufferState.ConsumeThrough, BufferState.SupersededTotal;
    var mf := ForIdentity(full.matcher, identity, input.freshRunId);
    var mp := ForIdentity(pruned.matcher, identity, input.freshRunId);
    assert FrameSetOf(mf, identity, frames, config.windowMs, input.nowMs)
           == FrameSetOf(mp, identity, frames, config.windowMs, input.nowMs);
  }

  lemma AttemptBuffers(config: Config, state: SyncState, input: Input)
    requires config.cameras != []
    ensures var after := Attempt(config, state, input).state.buffers;
            || after == state.buffers
            || (Best(config, state).Some? && after == state.buffers.ConsumeThrough(Best(config, state).value))
    ensures Attempt(config, state, input).emitted.Some? ==>
            && Best(config, state).Some?
            && Attempt(config, state, input).state.buffers == state.buffers.ConsumeThrough(Best(config, state).value)
    ensures Attempt(config, state, input).emitted.None? ==> Attempt(config, state, input).state.buffers == state.buffers
  {
  }

  /** The same attempt on shadowed buffers emits the same and leaves shadowed buffers. */
  lemma SimulatesAttempt(config: Config, full: SyncState, pruned: SyncState, input: Input, cutoff: Option<int>)
    requires config.cameras != [] && Best(config, full) == Best(config, pruned)
    requires Shadows(config.cameras, full.buffers, pruned.buffers, cutoff) && AllSteady(config.cameras, full.buffers)
    requires cutoff.Some? ==>
               CutoffOf(config, full.buffers).Some? && cutoff.value <= CutoffOf(config, full.buffers).value
    requires Essence(full.matcher) == Essence(pruned.matcher)
    ensures var f, p := Attempt(config, full, input), Attempt(config, pruned, input);
            && f.emitted == p.emitted
            && Essence(f.state.matcher) == Essence(p.state.matcher)
            && AllSteady(config.cameras, f.state.buffers)
            && var left := f.state.buffers;
               Shadows(config.cameras, left, WithoutStale(config, p.state.buffers), CutoffOf(config, left))
  {
    hide *;
    SameEmission(config, full, pruned, input);
    AttemptBuffers(config, full, input);
    AttemptBuffers(config, pruned, input);
    if Attempt(config, full, input).emitted.None? {
      ShadowAfterPrune(config, full.buffers, pruned.buffers, cutoff);
    } else {
      var best := Best(config, full).value;
      SteadyAfterConsume(config.cameras, full.buffers, best);
      ShadowAfterConsume(config.cameras, full.buffers, pruned.buffers, cutoff, best);
      CutoffAfterConsume(config, full.buffers, best);
      ShadowAfterPrune(config, full.buffers.ConsumeThrough(best), pruned.buffers.ConsumeThrough(best), cutoff);
    }
  }

  lemma {:induction false} SimulatesStep(config: Config, full: SyncState, pruned: SyncState, input: Input)
    requires config.cameras != [] && config.windowMs >= 0 && Simulates(config, full, pruned)
    requires NoRewind(config.cameras, full.buffers, Stored(input.frame)) && !ConflictArises(config, full, input)
    ensures var f, p := HandleFrame(config, false, full, input), HandleFrame(config, true, pruned, input);
            f.emitted == p.emitted && Simulates(config, f.state, p.state)
  {
    var stored := Stored(input.frame);
    QuiescentUnlessConflict(config, false, full, input);
    SimulatesAdd(config, full, pruned, stored);
    if !full.buffers.Accepts(stored) || stored.deviceId !in config.cameras {
      CutoffAfterIdleAdd(config, full.buffers, stored);
    } else {
      var fullAdded := full.(buffers := full.buffers.AddFrame(stored));
      var prunedAdded := pruned.(buffers := pruned.buffers.AddFrame(stored));
      SameCandidate(config, full.buffers, prunedAdded.buffers, stored);
      CutoffGrows(config, full.buffers, stored);
      SimulatesAttempt(config, fullAdded, prunedAdded, input, CutoffOf(config, full.buffers));
    }
  }

  // ----- whole runs -----

  /** Along the run no stored frame goes back in time and no scope conflict arises. */
  ghost predicate SteadyRun(config: Config, state: SyncState, inputs: seq<Input>)
    decreases |inputs|
  {
    inputs == [] ||
    (&& NoRewind(config.cameras, state.buffers, Stored(inputs[0].frame))
     && !ConflictArises(config, state, inputs[0])
     && SteadyRun(config, HandleFrame(config, true, state, inputs[0]).state, inputs[1..]))
  }

  lemma SameConditions(config: Config, full: SyncState, pruned: SyncState, input: Input)
    requires config.cameras != [] && config.windowMs >= 0 && Simulates(config, full, pruned)
    requires NoRewind(config.cameras, pruned.buffers, Stored(input.frame)) && !ConflictArises(config, pruned, input)
    ensures NoRewind(config.cameras, full.buffers, Stored(input.frame)) && !ConflictArises(config, full, input)
  {
    var stored := Stored(input.frame);
    ShadowSameAcceptance(config.cameras, full.buffers, pruned.buffers, CutoffOf(config, full.buffers), stored);
    assert pruned.buffers.Camera(stored.deviceId).lastTimestampMs
           == full.buffers.Camera(stored.deviceId).lastTimestampMs;
    assert NoRewind(config.cameras, full.buffers, stored);
    hide Quiescent, Shadows;
    SimulatesAdd(config, full, pruned, stored);
    SameCandidate(config, full.buffers, pruned.buffers.AddFrame(stored), stored);
  }

  lemma {:induction false} RunsAgree(config: Config, full: SyncState, pruned: SyncState, inputs: seq<Input>)
    requires config.cameras != [] && config.windowMs >= 0
    requires Simulates(config, full, pruned) && SteadyRun(config, pruned, inputs)
    ensures Run(config, true, pruned, inputs).emitted == Run(config, false, full, inputs).emitted
    decreases |inputs|
  {
    if inputs != [] {
      SameConditions(config, full, pruned, inputs[0]);
      SimulatesStep(config, full, pruned, inputs[0]);
      RunsAgree(config, HandleFrame(config, false, full, inputs[0]).state,
                HandleFrame(config, true, pruned, inputs[0]).state, inputs[1..]);
    }
  }

  lemma {:induction false} NoCamerasNoSets(config: Config, pruning: bool, state: SyncState, inputs: seq<Input>)
    requires config.cameras == []
    ensures Run(config, pruning, state, inputs).emitted == []
    decreases |inputs|
  {
    if inputs != [] {
      NoCamerasNoSets(config, pruning, HandleFrame(config, pruning, state, inputs[0]).state, inputs[1..]);
    }
  }

  /** With and without stale pruning a run emits the same frame sets in the same order. */
  lemma {:induction false} PruningIsInvisible(config: Config, size: nat, runId: string, inputs: seq<Input>)
    requires size >= 1 && config.windowMs >= 0
    requires SteadyRun(config, Initial(size, runId), inputs)
    ensures Run(config, true, Initial(size, runId), inputs).emitted
            == Run(config, false, Initial(size, runId), inputs).emitted
  {
    var start := Initial(size, runId);
    if config.cameras == [] {
      NoCamerasNoSets(config, true, start, inputs);
      NoCamerasNoSets(config, false, start, inputs);
    } else {
      InitiallyQuiescent(config, size);
      RunsAgree(config, start, start, inputs);
    }
  }

  // ----- V2 runs with unchanging sources are steady -----

  predicate FromSources(config: Config, inputs: seq<Input>, sources: map<string, SourceIdentity>)
  {
    forall i | 0 <= i < |inputs| && inputs[i].frame.deviceId in config.cameras ::
      var frame := inputs[i].frame;
      frame.deviceId in sources && frame.mode == V2 && frame.source == sources[frame.deviceId]
  }

  predicate SourceHolds(camera: CameraState, source: SourceIdentity)
  {
    match camera.sourceIdentity
    case None => camera.lastTimestampMs.None?
    case Some(identity) => identity == source
  }

  predicate SourcesHold(config: Config, buffers: BufferState, sources: map<string, SourceIdentity>)
  {
    forall d | d in config.cameras && d in sources :: SourceHolds(buffers.Camera(d), sources[d])
  }

  /** `after` is `before` without some of its older frames. */
  ghost predicate Thinned(before: CameraState, after: CameraState)
  {
    after == before || exists t :: after == before.KeepFrom(t)
  }

  lemma ThinnedTwice(a: CameraState, b: CameraState, c: CameraState)
    requires Thinned(a, b) && Thinned(b, c)
    ensures Thinned(a, c)
  {
    if b != a && c != b {
      var t :| b == a.KeepFrom(t);
      var u :| c == b.KeepFrom(u);
      NotBeforeTwice(a.frames, t, u);
      assert c == a.KeepFrom(if t < u then u else t);
    }
  }

  lemma AttemptThins(config: Config, state: SyncState, input: Input, d: string)
    requires config.cameras != []
    ensures Thinned(state.buffers.Camera(d), Attempt(config, state, input).state.buffers.Camera(d))
  {
    AttemptBuffers(config, state, input);
    if Attempt(config, state, input).emitted.Some? {
      ConsumedCamera(state.buffers, Best(config, state).value, d);
    }
  }

  lemma PruneThins(config: Config, pruning: bool, buffers: BufferState, d: string)
    requires config.cameras != []
    ensures Thinned(buffers.Camera(d), PrunedBuffers(config, pruning, buffers).Camera(d))
  {
    if AllSeen(buffers, config.cameras) {
      KeptCamera(buffers, config.cameras, Watermark(buffers, config.cameras) - config.windowMs, d);
    }
  }

  /** After storing, a step only removes older frames. */
  lemma StepThins(config: Config, pruning: bool, state: SyncState, input: Input, d: string)
    ensures Thinned(state.buffers.AddFrame(Stored(input.frame)).Camera(d),
                    HandleFrame(config, pruning, state, input).state.buffers.Camera(d))
  {
    var stored := Stored(input.frame);
    var added := state.(buffers := state.buffers.AddFrame(stored));
    if state.buffers.Accepts(stored) && config.cameras != [] && stored.deviceId in config.cameras {
      var left := Attempt(config, added, input).state.buffers;
      AttemptThins(config, added, input, d);
      PruneThins(config, pruning, left, d);
      ThinnedTwice(added.buffers.Camera(d), left.Camera(d), PrunedBuffers(config, pruning, left).Camera(d));
    }
  }

  lemma SourcesHoldAfter(config: Config, state: SyncState, input: Input, sources: map<string, SourceIdentity>)
    requires SourcesHold(config, state.buffers, sources) && FromSources(config, [input], sources)
    ensures NoRewind(config.cameras, state.buffers, Stored(input.frame))
    ensures SourcesHold(config, HandleFrame(config, true, state, input).state.buffers, sources)
  {
    assert [input][0] == input;
    forall d | d in config.cameras && d in sources
      ensures SourceHolds(HandleFrame(config, true, state, input).state.buffers.Camera(d), sources[d])
    {
      StepThins(config, true, state, input, d);
      AddedCamera(state.buffers, Stored(input.frame), d);
    }
  }

  lemma {:induction false} FixedSourcesAreSteady(
      config: Config, state: SyncState, inputs: seq<Input>, sources: map<string, SourceIdentity>)
    requires SourcesHold(config, state.buffers, sources) && FromSources(config, inputs, sources)
    requires NoConflicts(config, true, state, inputs)
    ensures SteadyRun(config, state, inputs)
    decreases |inputs|
  {
    if inputs != [] {
      SourcesHoldAfter(config, state, inputs[0], sources);
      FixedSourcesAreSteady(config, HandleFrame(config, true, state, inputs[0]).state, inputs[1..], sources);
    }
  }

  /** With V2 frames, one unchanging source per camera and no scope conflict, pruning is invisible. */
  lemma {:induction false} PruningIsInvisibleForFixedSources(
    config: Config, size: nat, runId: string, inputs: seq<Input>, sources: map<string, SourceIdentity>)
    requires size >= 1 && config.windowMs >= 0 && FromSources(config, inputs, sources)
    requires NoConflicts(config, true, Initial(size, runId), inputs)
    ensures Run(config, true, Initial(size, runId), inputs).emitted
            == Run(config, false, Initial(size, runId), inputs).emitted
  {
    FixedSourcesAreSteady(config, Initial(size, runId), inputs, sources);
    PruningIsInvisible(config, size, runId, inputs);
  }
}

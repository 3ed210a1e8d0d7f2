/** One match attempt per frame misses nothing: afterwards no selection that fits the
    window is left, unless the scopes of the candidate could not be reconciled. */
module Quiescence {
  import opened Wrappers
  import opened Sequences
  import opened SyncModels
  import opened BufferSpec
  import opened FrameOrder
  import opened MinSpanSweep
  import opened SyncSpec

  function Held(buffers: BufferState, cameras: seq<string>): Stock
  {
    map d | d in cameras :: buffers.Frames(d)
  }

  ghost predicate Fits(stock: Stock, pick: Selection, windowMs: int)
  {
    pick != map[] && IsSelection(stock, pick) && Span(pick) <= windowMs
  }

  ghost predicate Quiescent(buffers: BufferState, cameras: seq<string>, windowMs: int)
  {
    forall pick :: !Fits(Held(buffers, cameras), pick, windowMs)
  }

  // ----- what the buffer operations keep -----

  lemma AddedFrames(buffers: BufferState, frame: SyncFrame, d: string)
    ensures var added := buffers.AddFrame(frame);
            && (!buffers.Accepts(frame) || d != frame.deviceId ==> added.Frames(d) == buffers.Frames(d))
            && (forall f | f in added.Frames(d) :: f in buffers.Frames(d) || f == frame)
            && (buffers.Accepts(frame) ==> added.Camera(frame.deviceId).lastTimestampMs == Some(frame.timestampMs))
            && (d != frame.deviceId ==> added.Camera(d) == buffers.Camera(d))
  {
    hide Trim, Bounded;
    var added := buffers.AddFrame(frame);
    BoundedFrames(buffers.Camera(frame.deviceId), frame, buffers.size);
    if buffers.Accepts(frame) {
      var camera := buffers.Camera(frame.deviceId);
      assert added.Camera(frame.deviceId).frames == camera.Append(frame, buffers.size).frames;
    }
  }

  lemma BoundedFrames(camera: CameraState, frame: SyncFrame, size: nat)
    ensures forall f | f in camera.Append(frame, size).frames :: f in camera.frames || f == frame
  {
  }

  lemma KeptFrames(buffers: BufferState, cameras: seq<string>, cutoffMs: int, d: string)
    ensures buffers.KeepFrom(cameras, cutoffMs).Frames(d)
            == if d in cameras then NotBefore(buffers.Frames(d), cutoffMs) else buffers.Frames(d)
  {
  }

  lemma ConsumedFrames(buffers: BufferState, selected: Selection, d: string)
    ensures buffers.ConsumeThrough(selected).Frames(d)
            == if d in selected then NotBefore(buffers.Frames(d), selected[d].timestampMs + 1) else buffers.Frames(d)
  {
  }

  /** Fewer frames leave fewer selections. */
  lemma FewerFramesFitLess(few: BufferState, many: BufferState, cameras: seq<string>, pick: Selection, windowMs: int)
    requires forall d, f | d in cameras && f in few.Frames(d) :: f in many.Frames(d)
    requires Fits(Held(few, cameras), pick, windowMs)
    ensures Fits(Held(many, cameras), pick, windowMs)
  {
    forall d | d in Held(many, cameras) ensures pick[d] in Held(many, cameras)[d] {
      assert pick[d] in Held(few, cameras)[d];
    }
  }

  lemma StaysQuiescent(few: BufferState, many: BufferState, cameras: seq<string>, windowMs: int)
    requires forall d, f | d in cameras && f in few.Frames(d) :: f in many.Frames(d)
    requires Quiescent(many, cameras, windowMs)
    ensures Quiescent(few, cameras, windowMs)
  {
    forall pick | Fits(Held(few, cameras), pick, windowMs) ensures false {
      FewerFramesFitLess(few, many, cameras, pick, windowMs);
    }
  }

  /** Sorting does not change which selections there are. */
  lemma OfferedAsHeld(buffers: BufferState, cameras: seq<string>, pick: Selection)
    ensures IsSelection(Offer(buffers, cameras), pick) <==> IsSelection(Held(buffers, cameras), pick)
    ensures InOrder(Offer(buffers, cameras))
  {
    forall d | d in cameras ensures Ascending(SortFrames(buffers.Frames(d))) {
      SortedIsAscending(SortFrames(buffers.Frames(d)));
    }
    assert Offer(buffers, cameras).Keys == Held(buffers, cameras).Keys;
    forall d | d in cameras && d in pick
      ensures pick[d] in Offer(buffers, cameras)[d] <==> pick[d] in Held(buffers, cameras)[d]
    {
      assert pick[d] in SortFrames(buffers.Frames(d)) <==> pick[d] in buffers.Frames(d);
    }
    assert && (forall d | d in Offer(buffers, cameras) :: d in cameras)
           && (forall d | d in cameras :: d in Held(buffers, cameras));
    if pick.Keys == Held(buffers, cameras).Keys {
      assert forall d | d in Held(buffers, cameras) :: d in cameras && d in pick;
    }
  }

  /** The attempt finds a candidate exactly when the buffers hold a selection that fits,
      and then one of least span, the earliest among those. */
  lemma {:induction false} BestIsOptimal(config: Config, state: SyncState)
    requires config.cameras != []
    ensures var held := Held(state.buffers, config.cameras);
            var best := Best(config, state);
            && (best.Some? <==> exists pick :: Fits(held, pick, config.windowMs))
            && (best.Some? ==> Fits(held, best.value, config.windowMs))
            && (best.Some? ==> forall pick | pick != map[] && IsSelection(held, pick) :: NoWorse(best.value, pick))
  {
    var held := Held(state.buffers, config.cameras);
    var offer := Offer(state.buffers, config.cameras);
    var best := Best(config, state);
    assert config.cameras[0] in offer;
    OfferedAsHeld(state.buffers, config.cameras, map[]);
    if best.Some? {
      SweepSelects(offer);
      OfferedAsHeld(state.buffers, config.cameras, best.value);
      assert Fits(held, best.value, config.windowMs);
      forall pick | pick != map[] && IsSelection(held, pick) ensures NoWorse(best.value, pick) {
        OfferedAsHeld(state.buffers, config.cameras, pick);
        SweepIsOptimal(offer, pick);
      }
    } else {
      forall pick | Fits(held, pick, config.windowMs) ensures false {
        OfferedAsHeld(state.buffers, config.cameras, pick);
        CandidateIffSelectionFits(offer, config.windowMs);
      }
    }
  }

  // ----- the arriving frame -----

  lemma FitsWithoutArrival(buffers: BufferState, frame: SyncFrame, cameras: seq<string>, pick: Selection, windowMs: int)
    requires Fits(Held(buffers.AddFrame(frame), cameras), pick, windowMs)
    requires !buffers.Accepts(frame) || frame.deviceId !in cameras || pick[frame.deviceId] != frame
    ensures Fits(Held(buffers, cameras), pick, windowMs)
  {
    var held, added := Held(buffers, cameras), Held(buffers.AddFrame(frame), cameras);
    forall d | d in held ensures pick[d] in held[d] {
      assert d in added && pick[d] in added[d];
      AddedFrames(buffers, frame, d);
    }
  }

  /** When nothing fitted before, whatever fits now uses the frame that arrived. */
  lemma {:induction false} FitUsesArrival(
      buffers: BufferState, frame: SyncFrame, cameras: seq<string>, pick: Selection, windowMs: int)
    requires Quiescent(buffers, cameras, windowMs)
    requires Fits(Held(buffers.AddFrame(frame), cameras), pick, windowMs)
    ensures buffers.Accepts(frame) && frame.deviceId in cameras && pick[frame.deviceId] == frame
  {
    if !(buffers.Accepts(frame) && frame.deviceId in cameras && pick[frame.deviceId] == frame) {
      FitsWithoutArrival(buffers, frame, cameras, pick, windowMs);
    }
  }

  lemma {:induction false} WatermarkIsLeast(buffers: BufferState, cameras: seq<string>, d: string)
    requires cameras != [] && AllSeen(buffers, cameras) && d in cameras
    ensures Watermark(buffers, cameras) <= buffers.Camera(d).lastTimestampMs.value
  {
    if |cameras| > 1 && d != cameras[0] {
      assert cameras == [cameras[0]] + cameras[1..];
      WatermarkIsLeast(buffers, cameras[1..], d);
    }
  }

  lemma PruneDropsOnly(config: Config, pruning: bool, buffers: BufferState)
    requires config.cameras != []
    ensures forall d, f | d in config.cameras && f in PrunedBuffers(config, pruning, buffers).Frames(d) ::
              f in buffers.Frames(d)
  {
    if pruning && AllSeen(buffers, config.cameras) {
      var cutoff := Watermark(buffers, config.cameras) - config.windowMs;
      forall d, f | d in config.cameras && f in PrunedBuffers(config, pruning, buffers).Frames(d)
        ensures f in buffers.Frames(d)
      {
        KeptFrames(buffers, config.cameras, cutoff, d);
        NotBeforeKeeps(buffers.Frames(d), cutoff);
      }
    }
  }

  lemma MembersAreRecent(buffers: BufferState, cameras: seq<string>, newest: string, pick: Selection, windowMs: int)
    requires newest in cameras && newest in pick && Span(pick) <= windowMs && AllSeen(buffers, cameras)
    requires buffers.Camera(newest).lastTimestampMs == Some(pick[newest].timestampMs)
    ensures forall d | d in pick :: pick[d].timestampMs >= Watermark(buffers, cameras) - windowMs
  {
    WatermarkIsLeast(buffers, cameras, newest);
    var first := EarliestOf(pick);
    var last := LatestOf(pick);
  }

  lemma PruneKeepsFrame(config: Config, pruning: bool, buffers: BufferState, d: string, frame: SyncFrame)
    requires config.cameras != [] && frame in buffers.Frames(d)
    requires AllSeen(buffers, config.cameras) ==>
               frame.timestampMs >= Watermark(buffers, config.cameras) - config.windowMs
    ensures frame in PrunedBuffers(config, pruning, buffers).Frames(d)
  {
    if pruning && AllSeen(buffers, config.cameras) {
      var cutoff := Watermark(buffers, config.cameras) - config.windowMs;
      KeptFrames(buffers, config.cameras, cutoff, d);
      NotBeforeKeeps(buffers.Frames(d), cutoff);
    }
  }

  /** Pruning never removes a member of a selection that fits and uses the newest frame. */
  lemma {:induction false} PruneKeepsFits(
      config: Config, pruning: bool, buffers: BufferState, newest: string, pick: Selection)
    requires newest in config.cameras && Fits(Held(buffers, config.cameras), pick, config.windowMs)
    requires newest in pick && buffers.Camera(newest).lastTimestampMs == Some(pick[newest].timestampMs)
    ensures Fits(Held(PrunedBuffers(config, pruning, buffers), config.cameras), pick, config.windowMs)
  {
    if AllSeen(buffers, config.cameras) {
      MembersAreRecent(buffers, config.cameras, newest, pick, config.windowMs);
    }
    var pruned := PrunedBuffers(config, pruning, buffers);
    forall d | d in Held(pruned, config.cameras) ensures pick[d] in Held(pruned, config.cameras)[d] {
      assert pick[d] in Held(buffers, config.cameras)[d];
      PruneKeepsFrame(config, pruning, buffers, d, pick[d]);
    }
  }

  lemma ConsumedIsGone(buffers: BufferState, selected: Selection, d: string)
    requires d in selected
    ensures selected[d] !in buffers.ConsumeThrough(selected).Frames(d)
  {
    ConsumedFrames(buffers, selected, d);
    NotBeforeKeeps(buffers.Frames(d), selected[d].timestampMs + 1);
  }

  lemma ConsumesOnly(buffers: BufferState, selected: Selection, d: string)
    ensures forall f | f in buffers.ConsumeThrough(selected).Frames(d) :: f in buffers.Frames(d)
  {
    ConsumedFrames(buffers, selected, d);
    if d in selected { NotBeforeKeeps(buffers.Frames(d), selected[d].timestampMs + 1); }
  }

  /** Emitting consumes the arriving frame, so nothing that fits survives. */
  lemma {:induction false} EmittingLeavesNothing(
      buffers: BufferState, frame: SyncFrame, cameras: seq<string>, best: Selection, windowMs: int)
    requires Quiescent(buffers, cameras, windowMs)
    requires Fits(Held(buffers.AddFrame(frame), cameras), best, windowMs)
    ensures frame.deviceId in best && best[frame.deviceId] == frame
    ensures Quiescent(buffers.AddFrame(frame).ConsumeThrough(best), cameras, windowMs)
  {
    var added := buffers.AddFrame(frame);
    var consumed := added.ConsumeThrough(best);
    FitUsesArrival(buffers, frame, cameras, best, windowMs);
    assert frame.deviceId in Held(added, cameras);
    forall d, f | d in cameras && f in consumed.Frames(d) ensures f in added.Frames(d) {
      ConsumesOnly(added, best, d);
    }
    ConsumedIsGone(added, best, frame.deviceId);
    forall pick ensures !Fits(Held(consumed, cameras), pick, windowMs) {
      if Fits(Held(consumed, cameras), pick, windowMs) {
        assert frame.deviceId in Held(consumed, cameras);
        assert pick[frame.deviceId] in consumed.Frames(frame.deviceId);
        FewerFramesFitLess(consumed, added, cameras, pick, windowMs);
        FitUsesArrival(buffers, frame, cameras, pick, windowMs);
      }
    }
  }

  // ----- the main result -----

  /** After a step nothing that fits is left, exactly when no scope conflict arose;
      and every emitted set contains the frame that triggered it. */
  lemma {:induction false} QuiescentUnlessConflict(config: Config, pruning: bool, state: SyncState, input: Input)
    requires config.cameras != [] && Quiescent(state.buffers, config.cameras, config.windowMs)
    ensures var after := HandleFrame(config, pruning, state, input);
            var left := after.state.buffers;
            && (Quiescent(left, config.cameras, config.windowMs) <==> !ConflictArises(config, state, input))
            && (after.emitted.Some? ==>
                && input.frame.deviceId in after.emitted.value.frames
                && after.emitted.value.frames[input.frame.deviceId] == Stored(input.frame))
  {
    var stored := Stored(input.frame);
    var added := state.(buffers := state.buffers.AddFrame(stored));
    if !state.buffers.Accepts(stored) || stored.deviceId !in config.cameras {
      forall pick | Fits(Held(added.buffers, config.cameras), pick, config.windowMs) ensures false {
        FitUsesArrival(state.buffers, stored, config.cameras, pick, config.windowMs);
      }
    } else {
      BestIsOptimal(config, added);
      AttemptQuiescent(config, pruning, state, input);
    }
  }

  lemma AttemptQuiescent(config: Config, pruning: bool, state: SyncState, input: Input)
    requires config.cameras != [] && Quiescent(state.buffers, config.cameras, config.windowMs)
    requires state.buffers.Accepts(Stored(input.frame)) && input.frame.deviceId in config.cameras
    ensures var attempt := Attempt(config, state.(buffers := state.buffers.AddFrame(Stored(input.frame))), input);
            var after := PrunedBuffers(config, pruning, attempt.state.buffers);
            && (Quiescent(after, config.cameras, config.windowMs) <==> !ConflictArises(config, state, input))
            && (attempt.emitted.Some? ==>
                && input.frame.deviceId in attempt.emitted.value.frames
                && attempt.emitted.value.frames[input.frame.deviceId] == Stored(input.frame))
  {
    var stored := Stored(input.frame);
    var added := state.(buffers := state.buffers.AddFrame(stored));
    var best := Best(config, added);
    var left := Attempt(config, added, input).state.buffers;
    BestIsOptimal(config, added);
    PruneDropsOnly(config, pruning, left);
    if best.None? {
      StaysQuiescent(PrunedBuffers(config, pruning, left), left, config.cameras, config.windowMs);
    } else if ConflictArises(config, state, input) {
      FitUsesArrival(state.buffers, stored, config.cameras, best.value, config.windowMs);
      AddedFrames(state.buffers, stored, stored.deviceId);
      PruneKeepsFits(config, pruning, left, stored.deviceId, best.value);
    } else {
      EmittingLeavesNothing(state.buffers, stored, config.cameras, best.value, config.windowMs);
      StaysQuiescent(PrunedBuffers(config, pruning, left), left, config.cameras, config.windowMs);
    }
  }

  // ----- whole runs -----

  /** A run may be cut anywhere. */
  lemma {:induction false} RunsOn(
      config: Config, pruning: bool, state: SyncState, before: seq<Input>, inputs: seq<Input>)
    ensures var first, all := Run(config, pruning, state, before), Run(config, pruning, state, before + inputs);
            && all.state == Run(config, pruning, first.state, inputs).state
            && all.emitted == first.emitted + Run(config, pruning, first.state, inputs).emitted
    decreases |before|
  {
    if before == [] {
      EmptyLeft(inputs);
      EmptyLeft(Run(config, pruning, state, inputs).emitted);
    } else {
      assert (before + inputs)[0] == before[0] && (before + inputs)[1..] == before[1..] + inputs;
      hide HandleFrame, AsSeq;
      var step := HandleFrame(config, pruning, state, before[0]);
      RunsOn(config, pruning, step.state, before[1..], inputs);
      var first := Run(config, pruning, step.state, before[1..]);
      Associative(AsSeq(step.emitted), first.emitted, Run(config, pruning, first.state, inputs).emitted);
    }
  }

  lemma RunLast(config: Config, pruning: bool, state: SyncState, before: seq<Input>, input: Input)
    ensures var first, all := Run(config, pruning, state, before), Run(config, pruning, state, before + [input]);
            var step := HandleFrame(config, pruning, first.state, input);
            all.state == step.state && all.emitted == first.emitted + AsSeq(step.emitted)
  {
    RunsOn(config, pruning, state, before, [input]);
    hide HandleFrame;
    var first := Run(config, pruning, state, before).state;
    assert [input][1..] == [];
    EmptyRight(AsSeq(HandleFrame(config, pruning, first, input).emitted));
    assert Run(config, pruning, first, [input]).emitted == AsSeq(HandleFrame(config, pruning, first, input).emitted);
  }

  ghost predicate NoConflicts(config: Config, pruning: bool, state: SyncState, inputs: seq<Input>)
    decreases |inputs|
  {
    inputs == [] ||
    (&& !ConflictArises(config, state, inputs[0])
     && NoConflicts(config, pruning, HandleFrame(config, pruning, state, inputs[0]).state, inputs[1..]))
  }

  lemma InitiallyQuiescent(config: Config, size: nat)
    requires config.cameras != []
    ensures Quiescent(EmptyBuffers(size), config.cameras, config.windowMs)
  {
    forall pick ensures !Fits(Held(EmptyBuffers(size), config.cameras), pick, config.windowMs) {
      assert config.cameras[0] in Held(EmptyBuffers(size), config.cameras);
    }
  }

  lemma {:induction false} StaysQuiescentFrom(config: Config, pruning: bool, state: SyncState, inputs: seq<Input>)
    requires config.cameras != [] && Quiescent(state.buffers, config.cameras, config.windowMs)
    requires NoConflicts(config, pruning, state, inputs)
    ensures Quiescent(Run(config, pruning, state, inputs).state.buffers, config.cameras, config.windowMs)
    decreases |inputs|
  {
    if inputs != [] {
      hide HandleFrame, Quiescent, ConflictArises;
      QuiescentUnlessConflict(config, pruning, state, inputs[0]);
      StaysQuiescentFrom(config, pruning, HandleFrame(config, pruning, state, inputs[0]).state, inputs[1..]);
    }
  }

  /** At the end of every run without scope conflicts nothing that fits is left. The next
      frame keeps it so exactly if its candidate has no conflict, and a set emitted then
      contains it. */
  lemma {:induction false} RunsStayQuiescent(
      config: Config, pruning: bool, size: nat, runId: string, inputs: seq<Input>, next: Input)
    requires config.cameras != [] && NoConflicts(config, pruning, Initial(size, runId), inputs)
    ensures var at := Run(config, pruning, Initial(size, runId), inputs).state;
            var after := HandleFrame(config, pruning, at, next);
            && Quiescent(at.buffers, config.cameras, config.windowMs)
            && (Quiescent(after.state.buffers, config.cameras, config.windowMs) <==> !ConflictArises(config, at, next))
            && (after.emitted.Some? ==>
                && next.frame.deviceId in after.emitted.value.frames
                && after.emitted.value.frames[next.frame.deviceId] == Stored(next.frame))
  {
    InitiallyQuiescent(config, size);
    hide HandleFrame, Quiescent, ConflictArises, Run, NoConflicts;
    StaysQuiescentFrom(config, pruning, Initial(size, runId), inputs);
    QuiescentUnlessConflict(config, pruning, Run(config, pruning, Initial(size, runId), inputs).state, next);
  }
}

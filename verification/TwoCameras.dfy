/** Runs of two cameras, followed frame by frame: what the buffers hold as long as nothing is
    emitted, and when the next frame makes a set. */
module TwoCameras {
  import opened Wrappers
  import opened SyncModels
  import opened BufferSpec
  import opened MinSpanSweep
  import opened IdentityResolution
  import opened SyncSpec
  import opened Quiescence
  import opened PruningInvisible

  // ----- two cameras and what they hold -----

  /** The camera holds these frames, of which the last is the last it stored. */
  predicate Shows(camera: CameraState, frames: seq<SyncFrame>, n: nat)
  {
    && camera.frames == frames && |camera.retainedKeys| <= n
    && (if frames == [] then camera.sourceIdentity.None? && camera.lastTimestampMs.None?
        else
          && camera.sourceIdentity == Some(frames[|frames| - 1].source)
          && camera.lastTimestampMs == Some(frames[|frames| - 1].timestampMs)
          && camera.lastSequence == frames[|frames| - 1].sequence)
  }

  /** What the cameras "left" and "right" hold, and which keys the index may know. */
  predicate View(buffers: BufferState, keys: set<string>, left: seq<SyncFrame>, right: seq<SyncFrame>, n: nat)
  {
    && buffers.size == 30 && buffers.index.Keys <= keys
    && Shows(buffers.Camera("left"), left, n) && Shows(buffers.Camera("right"), right, n)
  }

  /** A frame that may follow the others of its camera. */
  predicate Continues(frames: seq<SyncFrame>, frame: SyncFrame)
  {
    frames != [] ==>
      var last := frames[|frames| - 1];
      && frame.source == last.source && frame.sequence.Some? == last.sequence.Some?
      && (frame.mode == V2 ==>
            && last.timestampMs <= frame.timestampMs
            && (frame.sequence.Some? ==> last.sequence.value < frame.sequence.value))
  }

  lemma AppendShows(camera: CameraState, frames: seq<SyncFrame>, n: nat, frame: SyncFrame, keys: seq<string>)
    requires Shows(camera, frames, n) && Continues(frames, frame) && |frames| < 30 && |keys| <= n + 1
    ensures !camera.IsOutOfOrder(frame)
    ensures Shows(camera.Append(frame, 30).(retainedKeys := keys), frames + [frame], n + 1)
  {
    StartedShows(camera, frames, n, frame);
    BoundedThirty(frames + [frame]);
    assert (frames + [frame])[|frames + [frame]| - 1] == frame;
    hide Bounded, CameraState.ForSource, Continues, CameraState.IsOutOfOrder;
  }

  lemma BoundedThirty(frames: seq<SyncFrame>)
    requires |frames| <= 30
    ensures Bounded(frames, 30) == frames
  {
  }

  lemma StartedShows(camera: CameraState, frames: seq<SyncFrame>, n: nat, frame: SyncFrame)
    requires Shows(camera, frames, n) && Continues(frames, frame)
    ensures var started := camera.ForSource(frame.source);
            && started.frames == frames && started.sourceIdentity == Some(frame.source)
            && (frame.sequence.None? ==> started.lastSequence.None?)
    ensures !camera.IsOutOfOrder(frame)
  {
  }

  lemma TrimNothing(keys: seq<string>, index: map<string, SyncFrame>, limit: nat)
    requires |keys| <= limit
    ensures Trim(keys, index, limit) == (keys, index)
  {
  }

  lemma AddShows(buffers: BufferState, frame: SyncFrame, frames: seq<SyncFrame>, n: nat, other: string)
    requires buffers.size == 30 && frame.bufferKey !in buffers.index && other != frame.deviceId
    requires Shows(buffers.Camera(frame.deviceId), frames, n) && Continues(frames, frame) && |frames| < 30 && n < 30
    ensures var after := buffers.AddFrame(frame);
            && buffers.Accepts(frame) && after.size == 30 && after.index == buffers.index[frame.bufferKey := frame]
            && Shows(after.Camera(frame.deviceId), frames + [frame], n + 1)
            && after.Camera(other) == buffers.Camera(other)
  {
    var camera := buffers.Camera(frame.deviceId);
    var keys := camera.retainedKeys + [frame.bufferKey];
    AddedCamera(buffers, frame, frame.deviceId);
    AddedCamera(buffers, frame, other);
    AppendShows(camera, frames, n, frame, keys);
    TrimNothing(keys, buffers.index[frame.bufferKey := frame], 30);
    hide BufferState.AddFrame, CameraState.Append, CameraState.IsOutOfOrder, Trim, Continues;
  }

  lemma MoreKeys(camera: CameraState, frames: seq<SyncFrame>, n: nat)
    requires Shows(camera, frames, n)
    ensures Shows(camera, frames, n + 1)
  {
  }

  /** A frame joins the camera it comes from. */
  lemma AddView(
      buffers: BufferState, keys: set<string>, left: seq<SyncFrame>, right: seq<SyncFrame>, n: nat, frame: SyncFrame)
    requires View(buffers, keys, left, right, n) && n < 30 && |left| < 30 && |right| < 30
    requires frame.bufferKey !in keys && (frame.deviceId == "left" || frame.deviceId == "right")
    requires Continues(if frame.deviceId == "left" then left else right, frame)
    ensures buffers.Accepts(frame)
    ensures frame.deviceId == "left" ==>
              View(buffers.AddFrame(frame), keys + {frame.bufferKey}, left + [frame], right, n + 1)
    ensures frame.deviceId == "right" ==>
              View(buffers.AddFrame(frame), keys + {frame.bufferKey}, left, right + [frame], n + 1)
  {
    assert "left"[0] != "right"[0];
    hide Continues, Shows, BufferState.AddFrame, BufferState.Accepts, BufferState.Camera;
    if frame.deviceId == "left" {
      AddShows(buffers, frame, left, n, "right");
      MoreKeys(buffers.Camera("right"), right, n);
    } else {
      AddShows(buffers, frame, right, n, "left");
      MoreKeys(buffers.Camera("left"), left, n);
    }
  }

  // ----- pruning -----

  function Last(frames: seq<SyncFrame>): int
    requires frames != []
  {
    frames[|frames| - 1].timestampMs
  }

  /** What pruning leaves of one camera's frames. */
  function Left(
      frames: seq<SyncFrame>, left: seq<SyncFrame>, right: seq<SyncFrame>, windowMs: int,
      pruning: bool): seq<SyncFrame>
  {
    if !pruning || left == [] || right == [] then frames
    else NotBefore(frames, (if Last(left) < Last(right) then Last(left) else Last(right)) - windowMs)
  }

  lemma LastStays(frames: seq<SyncFrame>, cutoffMs: int)
    requires frames != [] && Last(frames) >= cutoffMs
    ensures var kept := NotBefore(frames, cutoffMs);
            kept != [] && kept[|kept| - 1] == frames[|frames| - 1]
  {
    var k := |frames| - 1;
    assert frames == frames[..k] + [frames[k]];
    NotBeforeAppend(frames[..k], [frames[k]], cutoffMs);
    assert NotBefore([frames[k]], cutoffMs) == [frames[k]];
  }

  lemma KeepShows(camera: CameraState, frames: seq<SyncFrame>, n: nat, cutoffMs: int)
    requires Shows(camera, frames, n) && frames != [] && Last(frames) >= cutoffMs
    ensures Shows(camera.KeepFrom(cutoffMs), NotBefore(frames, cutoffMs), n)
  {
    LastStays(frames, cutoffMs);
  }

  lemma SeenInView(buffers: BufferState, keys: set<string>, left: seq<SyncFrame>, right: seq<SyncFrame>, n: nat)
    requires View(buffers, keys, left, right, n) && left != [] && right != []
    ensures var cameras := ["left", "right"];
            && AllSeen(buffers, cameras)
            && Watermark(buffers, cameras) == if Last(left) < Last(right) then Last(left) else Last(right)
  {
    var cameras := ["left", "right"];
    assert cameras[1..] == ["right"];
    assert Watermark(buffers, cameras[1..]) == Last(right);
  }

  lemma PruneView(
      config: Config, pruning: bool, buffers: BufferState, keys: set<string>, left: seq<SyncFrame>,
      right: seq<SyncFrame>, n: nat)
    requires config.cameras == ["left", "right"] && config.windowMs >= 0 && View(buffers, keys, left, right, n)
    ensures var w := config.windowMs;
            View(PrunedBuffers(config, pruning, buffers), keys, Left(left, left, right, w, pruning),
                 Left(right, left, right, w, pruning), n)
  {
    assert config.cameras[0] == "left" && config.cameras[1] == "right";
    if pruning && left != [] && right != [] {
      SeenInView(buffers, keys, left, right, n);
      var cutoff := Watermark(buffers, config.cameras) - config.windowMs;
      hide Watermark, AllSeen, Shows;
      KeptCamera(buffers, config.cameras, cutoff, "left");
      KeptCamera(buffers, config.cameras, cutoff, "right");
      KeepShows(buffers.Camera("left"), left, n, cutoff);
      KeepShows(buffers.Camera("right"), right, n, cutoff);
    }
  }

  // ----- candidates -----

  function Gap(f: SyncFrame, g: SyncFrame): int
  {
    if f.timestampMs < g.timestampMs then g.timestampMs - f.timestampMs else f.timestampMs - g.timestampMs
  }

  function First(f: SyncFrame, g: SyncFrame): int
  {
    if f.timestampMs < g.timestampMs then f.timestampMs else g.timestampMs
  }

  function Pair(f: SyncFrame, g: SyncFrame): Selection
  {
    map["left" := f, "right" := g]
  }

  lemma PairSpan(f: SyncFrame, g: SyncFrame)
    ensures var pick := Pair(f, g);
            && "left" in pick && "right" in pick && pick["left"] == f && pick["right"] == g
            && pick != map[] && Span(pick) == Gap(f, g) && Earliest(pick) == First(f, g)
  {
    assert "left"[0] != "right"[0];
    var pick := Pair(f, g);
    assert "left" in pick && "right" in pick;
    if f.timestampMs < g.timestampMs {
      SpanIs(pick, "left", "right");
    } else {
      SpanIs(pick, "right", "left");
    }
  }

  lemma PairFits(buffers: BufferState, left: seq<SyncFrame>, right: seq<SyncFrame>, f: SyncFrame, g: SyncFrame)
    requires buffers.Frames("left") == left && buffers.Frames("right") == right && f in left && g in right
    ensures Pair(f, g) != map[] && IsSelection(Held(buffers, ["left", "right"]), Pair(f, g))
  {
    PairSpan(f, g);
    hide BufferState.Frames, Span, Earliest;
    var held := Held(buffers, ["left", "right"]);
    assert held.Keys == {"left", "right"};
  }

  lemma FitIsPair(buffers: BufferState, left: seq<SyncFrame>, right: seq<SyncFrame>, pick: Selection)
    requires buffers.Frames("left") == left && buffers.Frames("right") == right
    requires IsSelection(Held(buffers, ["left", "right"]), pick)
    ensures "left" in pick && "right" in pick && pick["left"] in left && pick["right"] in right
    ensures pick == Pair(pick["left"], pick["right"])
  {
    hide BufferState.Frames;
    var held := Held(buffers, ["left", "right"]);
    assert ["left", "right"][0] in held && ["left", "right"][1] in held;
    assert pick.Keys == held.Keys == {"left", "right"};
  }

  lemma NoPair(config: Config, state: SyncState, left: seq<SyncFrame>, right: seq<SyncFrame>)
    requires config.cameras == ["left", "right"]
    requires state.buffers.Frames("left") == left && state.buffers.Frames("right") == right
    requires forall f, g | f in left && g in right :: Gap(f, g) > config.windowMs
    ensures Best(config, state).None?
  {
    hide *;
    BestIsOptimal(config, state);
    if Best(config, state).Some? {
      var best := Best(config, state).value;
      SelectionOf(Held(state.buffers, config.cameras), best, config.windowMs);
      FitIsPair(state.buffers, left, right, best);
      PairSpan(best["left"], best["right"]);
    }
  }

  lemma SelectionOf(stock: Stock, pick: Selection, windowMs: int)
    requires Fits(stock, pick, windowMs)
    ensures pick != map[] && IsSelection(stock, pick) && Span(pick) <= windowMs
  {
  }

  /** With a pair that fits there is a best one, no worse than it. */
  lemma SomePair(
      config: Config, state: SyncState, left: seq<SyncFrame>, right: seq<SyncFrame>, f: SyncFrame, g: SyncFrame)
    requires config.cameras == ["left", "right"]
    requires state.buffers.Frames("left") == left && state.buffers.Frames("right") == right
    requires f in left && g in right && Gap(f, g) <= config.windowMs
    ensures var best := Best(config, state);
            && best.Some? && "left" in best.value && "right" in best.value
            && best.value["left"] in left && best.value["right"] in right
            && Members(config.cameras, best.value) == [best.value["left"], best.value["right"]]
            && var x, y := best.value["left"], best.value["right"];
               Gap(x, y) < Gap(f, g) || (Gap(x, y) == Gap(f, g) && First(x, y) <= First(f, g))
  {
    hide *;
    BestIsOptimal(config, state);
    PairFits(state.buffers, left, right, f, g);
    PairSpan(f, g);
    FitsWithin(Held(state.buffers, config.cameras), Pair(f, g), config.windowMs);
    var best := Best(config, state).value;
    SelectionOf(Held(state.buffers, config.cameras), best, config.windowMs);
    FitIsPair(state.buffers, left, right, best);
    PairSpan(best["left"], best["right"]);
    NoWorseSays(best, Pair(f, g));
    PairMembers(best);
  }

  lemma FitsWithin(stock: Stock, pick: Selection, windowMs: int)
    requires pick != map[] && IsSelection(stock, pick) && Span(pick) <= windowMs
    ensures Fits(stock, pick, windowMs)
  {
  }

  lemma NoWorseSays(a: Selection, b: Selection)
    requires a != map[] && b != map[] && NoWorse(a, b)
    ensures Span(a) < Span(b) || (Span(a) == Span(b) && Earliest(a) <= Earliest(b))
  {
  }

  lemma PairMembers(pick: Selection)
    requires "left" in pick && "right" in pick
    ensures (forall d | d in ["left", "right"] :: d in pick)
    ensures Members(["left", "right"], pick) == [pick["left"], pick["right"]]
  {
  }

  // ----- steps -----

  /** Nothing was emitted so far, and this is what the cameras hold. */
  ghost predicate Silent(
      config: Config, pruning: bool, inputs: seq<Input>, keys: set<string>, left: seq<SyncFrame>,
      right: seq<SyncFrame>, n: nat)
  {
    var at := Run(config, pruning, Initial(30, "run"), inputs);
    at.emitted == [] && View(at.state.buffers, keys, left, right, n)
  }

  lemma Begin(config: Config, pruning: bool)
    ensures Silent(config, pruning, [], {}, [], [], 0)
  {
  }

  /** The lists of the cameras with one frame more. */
  function More(frames: seq<SyncFrame>, frame: SyncFrame, d: string): seq<SyncFrame>
  {
    if frame.deviceId == d then frames + [frame] else frames
  }

  predicate Admits(
      config: Config, keys: set<string>, left: seq<SyncFrame>, right: seq<SyncFrame>, n: nat, frame: SyncFrame)
  {
    && config.cameras == ["left", "right"] && config.windowMs >= 0
    && n < 30 && |left| < 30 && |right| < 30
    && frame.bufferKey !in keys && (frame.deviceId == "left" || frame.deviceId == "right")
    && Continues(if frame.deviceId == "left" then left else right, frame)
  }

  lemma StoresView(
      config: Config, state: SyncState, keys: set<string>, left: seq<SyncFrame>, right: seq<SyncFrame>, n: nat,
      frame: SyncFrame)
    requires View(state.buffers, keys, left, right, n) && Admits(config, keys, left, right, n, frame)
    ensures var added := state.buffers.AddFrame(frame);
            var l, r := More(left, frame, "left"), More(right, frame, "right");
            && state.buffers.Accepts(frame) && frame.deviceId in config.cameras && config.cameras != []
            && View(added, keys + {frame.bufferKey}, l, r, n + 1)
            && added.Frames("left") == l && added.Frames("right") == r
  {
    assert "left"[0] != "right"[0];
    assert config.cameras[0] == "left" && config.cameras[1] == "right";
    AddView(state.buffers, keys, left, right, n, frame);
    hide BufferState.AddFrame, BufferState.Accepts, Continues;
  }

  ghost predicate Misses(config: Config, state: SyncState)
  {
    && config.cameras != []
    && var best := Best(config, state);
       best.None? || Resolve(Members(config.cameras, best.value)).ScopeConflict?
  }

  lemma StepMisses(config: Config, pruning: bool, state: SyncState, input: Input)
    requires var f := Stored(input.frame);
             && state.buffers.Accepts(f) && f.deviceId in config.cameras
             && Misses(config, state.(buffers := state.buffers.AddFrame(f)))
    ensures var step := HandleFrame(config, pruning, state, input);
            && step.emitted == None
            && step.state.buffers == PrunedBuffers(config, pruning, state.buffers.AddFrame(Stored(input.frame)))
  {
    hide Best, Resolve, Members, PrunedBuffers, BufferState.AddFrame, BufferState.Accepts, BuildBufferKey;
  }

  lemma StepEmits(config: Config, pruning: bool, state: SyncState, input: Input)
    requires var f := Stored(input.frame);
             && state.buffers.Accepts(f) && f.deviceId in config.cameras
             && !Misses(config, state.(buffers := state.buffers.AddFrame(f)))
    ensures HandleFrame(config, pruning, state, input).emitted.Some?
  {
    hide Best, Resolve, Members, PrunedBuffers, BufferState.AddFrame, BufferState.Accepts, BuildBufferKey;
  }

  lemma SilentNext(
      config: Config, pruning: bool, inputs: seq<Input>, keys: set<string>, left: seq<SyncFrame>,
      right: seq<SyncFrame>, n: nat, input: Input)
    requires Silent(config, pruning, inputs, keys, left, right, n)
    requires Admits(config, keys, left, right, n, Stored(input.frame))
    requires var f, state := Stored(input.frame), Run(config, pruning, Initial(30, "run"), inputs).state;
             Misses(config, state.(buffers := state.buffers.AddFrame(f)))
    ensures var f, w := Stored(input.frame), config.windowMs;
            var l, r := More(left, f, "left"), More(right, f, "right");
            Silent(config, pruning, inputs + [input], keys + {f.bufferKey}, Left(l, l, r, w, pruning),
                   Left(r, l, r, w, pruning), n + 1)
  {
    var f, state := Stored(input.frame), Run(config, pruning, Initial(30, "run"), inputs).state;
    var l, r := More(left, f, "left"), More(right, f, "right");
    AdmitsSays(config, keys, left, right, n, f);
    hide Stored, View, Run, Misses, Admits, More, Left, HandleFrame, BufferState.AddFrame, BufferState.Accepts,
      PrunedBuffers;
    StoresView(config, state, keys, left, right, n, f);
    StepMisses(config, pruning, state, input);
    PruneView(config, pruning, state.buffers.AddFrame(f), keys + {f.bufferKey}, l, r, n + 1);
    RunLast(config, pruning, Initial(30, "run"), inputs, input);
  }

  lemma AdmitsSays(
      config: Config, keys: set<string>, left: seq<SyncFrame>, right: seq<SyncFrame>, n: nat, frame: SyncFrame)
    requires Admits(config, keys, left, right, n, frame)
    ensures config.cameras == ["left", "right"] && config.windowMs >= 0
  {
  }

  lemma ApartMisses(
      config: Config, state: SyncState, keys: set<string>, left: seq<SyncFrame>, right: seq<SyncFrame>, n: nat,
      frame: SyncFrame)
    requires View(state.buffers, keys, left, right, n) && Admits(config, keys, left, right, n, frame)
    requires forall f, g | f in More(left, frame, "left") && g in More(right, frame, "right") ::
               Gap(f, g) > config.windowMs
    ensures Misses(config, state.(buffers := state.buffers.AddFrame(frame)))
  {
    StoresView(config, state, keys, left, right, n, frame);
    AdmitsSays(config, keys, left, right, n, frame);
    hide Best, BufferState.AddFrame, BufferState.Accepts, View, Admits, More, Gap, BufferState.Frames;
    NoPair(config, state.(buffers := state.buffers.AddFrame(frame)), More(left, frame, "left"),
           More(right, frame, "right"));
  }

  lemma SilentApart(
      config: Config, pruning: bool, inputs: seq<Input>, keys: set<string>, left: seq<SyncFrame>,
      right: seq<SyncFrame>, n: nat, input: Input)
    requires Silent(config, pruning, inputs, keys, left, right, n)
    requires Admits(config, keys, left, right, n, Stored(input.frame))
    requires var s := Stored(input.frame);
             forall f, g | f in More(left, s, "left") && g in More(right, s, "right") :: Gap(f, g) > config.windowMs
    ensures var f, w := Stored(input.frame), config.windowMs;
            var l, r := More(left, f, "left"), More(right, f, "right");
            Silent(config, pruning, inputs + [input], keys + {f.bufferKey}, Left(l, l, r, w, pruning),
                   Left(r, l, r, w, pruning), n + 1)
  {
    hide Run, View, Admits, More, Gap, Misses, Stored, BufferState.AddFrame, Left;
    ApartMisses(config, Run(config, pruning, Initial(30, "run"), inputs).state, keys, left, right, n,
                Stored(input.frame));
    SilentNext(config, pruning, inputs, keys, left, right, n, input);
  }

  lemma LastEmits(
      config: Config, pruning: bool, inputs: seq<Input>, keys: set<string>, left: seq<SyncFrame>,
      right: seq<SyncFrame>, n: nat, input: Input, f: SyncFrame, g: SyncFrame)
    requires Silent(config, pruning, inputs, keys, left, right, n)
    requires Admits(config, keys, left, right, n, Stored(input.frame))
    requires var l, r := More(left, Stored(input.frame), "left"), More(right, Stored(input.frame), "right");
             && f in l && g in r && Gap(f, g) <= config.windowMs
             && forall x, y | x in l && y in r :: !Resolve([x, y]).ScopeConflict?
    ensures Run(config, pruning, Initial(30, "run"), inputs + [input]).emitted != []
  {
    var state, stored := Run(config, pruning, Initial(30, "run"), inputs).state, Stored(input.frame);
    AdmitsSays(config, keys, left, right, n, stored);
    hide Run, View, Admits, More, Gap, Stored, BufferState.AddFrame, BufferState.Accepts, Resolve, Best, Members,
      HandleFrame, BufferState.Frames;
    StoresView(config, state, keys, left, right, n, stored);
    SomePair(config, state.(buffers := state.buffers.AddFrame(stored)), More(left, stored, "left"),
             More(right, stored, "right"), f, g);
    StepEmits(config, pruning, state, input);
    RunLast(config, pruning, Initial(30, "run"), inputs, input);
  }

  lemma MoreIs(left: seq<SyncFrame>, right: seq<SyncFrame>, f: SyncFrame)
    ensures f.deviceId == "left" ==> More(left, f, "left") == left + [f] && More(right, f, "right") == right
    ensures f.deviceId == "right" ==> More(left, f, "left") == left && More(right, f, "right") == right + [f]
  {
    assert "left"[0] != "right"[0];
  }

  lemma SilentSays(
      config: Config, pruning: bool, inputs: seq<Input>, keys: set<string>, left: seq<SyncFrame>,
      right: seq<SyncFrame>, n: nat)
    requires Silent(config, pruning, inputs, keys, left, right, n)
    ensures Run(config, pruning, Initial(30, "run"), inputs).emitted == []
  {
  }

  lemma KeyOf(uid: string, other: string)
    requires |uid| == 1 && |other| == 1 && uid[0] != other[0]
    ensures "source:" + uid != "source:" + other
  {
    assert ("source:" + uid)[7] == uid[0] && ("source:" + other)[7] == other[0];
  }
}

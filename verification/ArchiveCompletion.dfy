/** Archive completions commute: whenever the members of a frame set complete, before or
    after the match and in whatever order, the recent sets end the same. */
module ArchiveCompletion {
  import opened Wrappers
  import opened SyncModels
  import opened BufferSpec
  import opened SyncSpec
  import opened Quiescence
  import opened PruningInvisible
  import opened IdentityResolution
  import opened Identifiers
  import opened Progress
  import opened ArchiveSpec
  import opened IndexAgreement
  import opened BufferedFrames
  import opened MarkedStates

  // ----- what holds of the recent sets while no key is accepted twice -----

  /** The members of a set are stored under different keys, known ones, no longer
      buffered, and indexed, if at all, to themselves. */
  ghost predicate Retired(emitted: FrameSet, buffers: BufferState, seen: set<string>)
  {
    && (forall d, e | d in emitted.frames && e in emitted.frames && d != e ::
          emitted.frames[d].bufferKey != emitted.frames[e].bufferKey)
    && (forall d | d in emitted.frames :: RetiredMember(emitted.frames[d], buffers, seen))
  }

  ghost predicate RetiredMember(member: SyncFrame, buffers: BufferState, seen: set<string>)
  {
    && member.bufferKey in seen
    && (member.bufferKey in buffers.index ==> buffers.index[member.bufferKey] == member)
    && NotBuffered(buffers, member.bufferKey)
  }

  ghost predicate NotBuffered(buffers: BufferState, key: string)
  {
    forall d, f | f in buffers.Frames(d) :: f.bufferKey != key
  }

  /** Two sets share neither their id nor the key of a member. */
  ghost predicate Apart(a: FrameSet, b: FrameSet)
  {
    && !SameId(a, b)
    && forall d, e | d in a.frames && e in b.frames :: a.frames[d].bufferKey != b.frames[e].bufferKey
  }

  ghost predicate RecentSound(recent: seq<FrameSet>, cameras: seq<string>, buffers: BufferState, seen: set<string>)
  {
    && (forall i | 0 <= i < |recent| ::
          Retired(recent[i], buffers, seen) && forall d :: d in recent[i].frames <==> d in cameras)
    && (forall i, j | 0 <= i < j < |recent| :: Apart(recent[i], recent[j]))
  }

  ghost predicate IdsSound(m: MatcherState, runs: set<string>)
  {
    m.captureRunId in runs && IdsUsed(m.recent, m.captureRunId, m.nextFrameSetId, runs)
  }

  ghost predicate IdsUsed(recent: seq<FrameSet>, run: string, next: int, runs: set<string>)
  {
    forall i | 0 <= i < |recent| ::
      recent[i].captureRunId in runs && (recent[i].captureRunId == run ==> recent[i].frameSetId < next)
  }

  ghost predicate KeysSeen(buffers: BufferState, seen: set<string>)
  {
    forall k | k in buffers.index :: k in seen
  }

  ghost predicate Sound(config: Config, state: SyncState, seen: set<string>, runs: set<string>)
  {
    && Agrees(state.buffers) && Buffered(state.buffers) && KeysSeen(state.buffers, seen)
    && RecentSound(state.matcher.recent, config.cameras, state.buffers, seen)
    && IdsSound(state.matcher, runs)
  }

  // ----- keys of buffered frames -----

  /** In an agreeing V2 state a buffered frame is indexed under its key, to its own camera. */
  lemma BufferedIsIndexed(buffers: BufferState, d: string, f: SyncFrame)
    requires Agrees(buffers) && Buffered(buffers) && f in buffers.Frames(d)
    ensures f.bufferKey in buffers.index && buffers.index[f.bufferKey] == f && f.deviceId == d
  {
    var camera := buffers.Camera(d);
    assert CameraBuffered(camera, buffers.index, buffers.size);
    assert CameraIndexed(camera, d, buffers.index, buffers.size);
    var i :| 0 <= i < |camera.frames| && camera.frames[i] == f;
    KeysOfFrames(camera.frames, camera.retainedKeys);
    hide BufferState.Camera, Agrees, Buffered, Steady;
    assert camera.frames[i].bufferKey in camera.retainedKeys;
  }

  lemma SameKeySameFrame(buffers: BufferState, d: string, f: SyncFrame, e: string, g: SyncFrame)
    requires Agrees(buffers) && Buffered(buffers) && f in buffers.Frames(d) && g in buffers.Frames(e)
    requires f.bufferKey == g.bufferKey
    ensures f == g && d == e
  {
    BufferedIsIndexed(buffers, d, f);
    BufferedIsIndexed(buffers, e, g);
  }

  // ----- a step keeps it -----

  lemma IndexAfterAdd(buffers: BufferState, frame: SyncFrame, k: string)
    requires k in buffers.AddFrame(frame).index
    ensures k in buffers.index || (buffers.Accepts(frame) && k == frame.bufferKey)
    ensures buffers.Accepts(frame) && k == frame.bufferKey ==> buffers.AddFrame(frame).index[k] == frame
    ensures k in buffers.index ==> buffers.AddFrame(frame).index[k] == buffers.index[k]
  {
    AddedCamera(buffers, frame, frame.deviceId);
    if buffers.Accepts(frame) {
      TrimmedByStoring(buffers, frame);
      hide BufferState.AddFrame, BufferState.Camera, Trim;
      KeptIfIndexed(buffers.Camera(frame.deviceId).retainedKeys + [frame.bufferKey],
                    buffers.AddFrame(frame).Camera(frame.deviceId).retainedKeys,
                    buffers.index[frame.bufferKey := frame], buffers.AddFrame(frame).index, k);
    }
  }

  /** A retired member stays retired when another frame is stored. */
  lemma RetiredAfterAdd(member: SyncFrame, buffers: BufferState, frame: SyncFrame, seen: set<string>)
    requires RetiredMember(member, buffers, seen) && (buffers.Accepts(frame) ==> frame.bufferKey !in seen)
    ensures RetiredMember(member, buffers.AddFrame(frame), seen)
  {
    var added := buffers.AddFrame(frame);
    hide BufferState.AddFrame, BufferState.Camera;
    if member.bufferKey in added.index {
      IndexAfterAdd(buffers, frame, member.bufferKey);
    }
    forall d, f | f in added.Frames(d) ensures f.bufferKey != member.bufferKey {
      AddedFrames(buffers, frame, d);
      if f !in buffers.Frames(d) {
        assert f == frame && buffers.Accepts(frame);
      }
    }
  }

  /** Fewer buffered frames, the same index. */
  ghost predicate Fewer(after: BufferState, before: BufferState)
  {
    && after.index == before.index
    && forall d, f | f in after.Frames(d) :: f in before.Frames(d)
  }

  lemma RetiredWithFewer(member: SyncFrame, before: BufferState, after: BufferState, seen: set<string>)
    requires RetiredMember(member, before, seen) && Fewer(after, before)
    ensures RetiredMember(member, after, seen)
  {
  }

  lemma ConsumeFewer(buffers: BufferState, selected: Selection)
    ensures Fewer(buffers.ConsumeThrough(selected), buffers)
  {
    hide BufferState.Camera;
    forall d, f | f in buffers.ConsumeThrough(selected).Frames(d) ensures f in buffers.Frames(d) {
      ConsumesOnly(buffers, selected, d);
    }
  }

  lemma PruneFewer(config: Config, pruning: bool, buffers: BufferState)
    requires config.cameras != []
    ensures Fewer(PrunedBuffers(config, pruning, buffers), buffers)
  {
    if pruning && AllSeen(buffers, config.cameras) {
      var cutoffMs := Watermark(buffers, config.cameras) - config.windowMs;
      hide AllSeen, Watermark;
      forall d, f | f in buffers.KeepFrom(config.cameras, cutoffMs).Frames(d) ensures f in buffers.Frames(d) {
        KeptFrames(buffers, config.cameras, cutoffMs, d);
        if d in config.cameras { NotBeforeKeeps(buffers.Frames(d), cutoffMs); }
      }
    }
  }

  lemma SoundWithFewer(
      recent: seq<FrameSet>, cameras: seq<string>, before: BufferState, after: BufferState, seen: set<string>)
    requires RecentSound(recent, cameras, before, seen) && Fewer(after, before)
    ensures RecentSound(recent, cameras, after, seen)
  {
    hide RetiredMember, Fewer, Apart;
    forall i | 0 <= i < |recent| ensures Retired(recent[i], after, seen) {
      forall d | d in recent[i].frames ensures RetiredMember(recent[i].frames[d], after, seen) {
        RetiredWithFewer(recent[i].frames[d], before, after, seen);
      }
    }
  }

  lemma SoundAfterAdd(
      recent: seq<FrameSet>, cameras: seq<string>, buffers: BufferState, frame: SyncFrame, seen: set<string>)
    requires RecentSound(recent, cameras, buffers, seen) && (buffers.Accepts(frame) ==> frame.bufferKey !in seen)
    ensures RecentSound(recent, cameras, buffers.AddFrame(frame), seen)
  {
    hide RetiredMember, Apart, BufferState.AddFrame, BufferState.Accepts;
    forall i | 0 <= i < |recent| ensures Retired(recent[i], buffers.AddFrame(frame), seen) {
      forall d | d in recent[i].frames ensures RetiredMember(recent[i].frames[d], buffers.AddFrame(frame), seen) {
        RetiredAfterAdd(recent[i].frames[d], buffers, frame, seen);
      }
    }
  }

  lemma SeenMore(
      recent: seq<FrameSet>, cameras: seq<string>, buffers: BufferState, seen: set<string>, more: set<string>)
    requires RecentSound(recent, cameras, buffers, seen) && seen <= more
    ensures RecentSound(recent, cameras, buffers, more)
  {
    hide NotBuffered, Apart;
  }

  // ----- emitting keeps it -----

  lemma ChosenRetired(config: Config, buffers: BufferState, frames: Selection, seen: set<string>, d: string)
    requires Agrees(buffers) && Buffered(buffers) && KeysSeen(buffers, seen)
    requires d in frames && frames[d] in buffers.Frames(d)
    ensures RetiredMember(frames[d], buffers.ConsumeThrough(frames), seen)
  {
    var consumed := buffers.ConsumeThrough(frames);
    BufferedIsIndexed(buffers, d, frames[d]);
    ConsumedIsGone(buffers, frames, d);
    ConsumeFewer(buffers, frames);
    hide BufferState.ConsumeThrough, BufferState.Camera, Agrees, Buffered;
    forall e, f | f in consumed.Frames(e) ensures f.bufferKey != frames[d].bufferKey {
      if f.bufferKey == frames[d].bufferKey {
        SameKeySameFrame(buffers, e, f, d, frames[d]);
      }
    }
  }

  lemma EmittedRetired(config: Config, buffers: BufferState, emitted: FrameSet, seen: set<string>)
    requires Agrees(buffers) && Buffered(buffers) && KeysSeen(buffers, seen)
    requires forall d | d in emitted.frames :: emitted.frames[d] in buffers.Frames(d)
    ensures Retired(emitted, buffers.ConsumeThrough(emitted.frames), seen)
  {
    hide BufferState.ConsumeThrough, BufferState.Camera, BufferState.Frames, Agrees, Buffered, RetiredMember;
    var frames := emitted.frames;
    forall d | d in frames ensures RetiredMember(frames[d], buffers.ConsumeThrough(frames), seen) {
      ChosenRetired(config, buffers, frames, seen, d);
    }
    forall d, e | d in frames && e in frames && d != e ensures frames[d].bufferKey != frames[e].bufferKey {
      if frames[d].bufferKey == frames[e].bufferKey {
        SameKeySameFrame(buffers, d, frames[d], e, frames[e]);
      }
    }
  }

  lemma EmittedApart(buffers: BufferState, earlier: FrameSet, emitted: FrameSet, seen: set<string>)
    requires Retired(earlier, buffers, seen) && !SameId(earlier, emitted)
    requires forall d | d in emitted.frames :: emitted.frames[d] in buffers.Frames(d)
    ensures Apart(earlier, emitted)
  {
    forall d, e | d in earlier.frames && e in emitted.frames
      ensures earlier.frames[d].bufferKey != emitted.frames[e].bufferKey
    {
      assert RetiredMember(earlier.frames[d], buffers, seen);
    }
  }

  lemma RecentAfterEmitting(
    config: Config, recent: seq<FrameSet>, buffers: BufferState, emitted: FrameSet, seen: set<string>)
    requires Agrees(buffers) && Buffered(buffers) && KeysSeen(buffers, seen)
    requires RecentSound(recent, config.cameras, buffers, seen)
    requires forall d :: d in emitted.frames <==> d in config.cameras
    requires forall d | d in emitted.frames :: emitted.frames[d] in buffers.Frames(d)
    requires forall i | 0 <= i < |recent| :: !SameId(recent[i], emitted)
    ensures RecentSound(recent + [emitted], config.cameras, buffers.ConsumeThrough(emitted.frames), seen)
  {
    var consumed := buffers.ConsumeThrough(emitted.frames);
    ConsumeFewer(buffers, emitted.frames);
    SoundWithFewer(recent, config.cameras, buffers, consumed, seen);
    EmittedRetired(config, buffers, emitted, seen);
    hide BufferState.ConsumeThrough, BufferState.Camera, BufferState.Frames, Agrees, Buffered, Retired, Apart, SameId;
    forall i | 0 <= i < |recent| ensures Apart(recent[i], emitted) {
      EmittedApart(buffers, recent[i], emitted, seen);
    }
  }

  lemma RecentBounded(recent: seq<FrameSet>, cameras: seq<string>, buffers: BufferState, seen: set<string>, limit: nat)
    requires RecentSound(recent, cameras, buffers, seen)
    ensures RecentSound(Bounded(recent, limit), cameras, buffers, seen)
  {
    hide Retired, Apart;
  }

  /** What an attempt does to the recent sets. */
  lemma AttemptRecent(config: Config, state: SyncState, input: Input)
    requires config.cameras != []
    ensures var attempt := Attempt(config, state, input);
            attempt.state.matcher.recent
            == if attempt.emitted.None? then state.matcher.recent
               else Bounded(state.matcher.recent + [attempt.emitted.value], config.recentLimit)
  {
    hide Attempt, Best, Resolve, FrameSetOf, Bounded;
    var best := Best(config, state);
    if best.None? || Resolve(Members(config.cameras, best.value)).ScopeConflict? {
      AttemptMisses(config, state, input);
    } else {
      AttemptEmits(config, state, input, best.value, Resolve(Members(config.cameras, best.value)).identity);
    }
  }

  lemma NewId(m: MatcherState, after: MatcherState, emitted: FrameSet, input: Input, runs: set<string>)
    requires IdsSound(m, runs) && Numbered(m, after, Some(emitted), input) && input.freshRunId !in runs
    ensures forall i | 0 <= i < |m.recent| :: !SameId(m.recent[i], emitted)
  {
  }

  lemma IdsAppend(
      recent: seq<FrameSet>, m: MatcherState, after: MatcherState, emitted: FrameSet, input: Input, runs: set<string>)
    requires m.captureRunId in runs && IdsUsed(recent, m.captureRunId, m.nextFrameSetId, runs)
    requires Numbered(m, after, Some(emitted), input) && input.freshRunId !in runs
    ensures after.captureRunId in runs + {input.freshRunId}
    ensures IdsUsed(recent + [emitted], after.captureRunId, after.nextFrameSetId, runs + {input.freshRunId})
  {
  }

  lemma IdsBounded(recent: seq<FrameSet>, run: string, next: int, runs: set<string>, limit: nat)
    requires IdsUsed(recent, run, next, runs)
    ensures IdsUsed(Bounded(recent, limit), run, next, runs)
  {
  }

  lemma IdsAfter(
      m: MatcherState, after: MatcherState, emitted: Option<FrameSet>, input: Input, runs: set<string>, limit: nat)
    requires IdsSound(m, runs) && Numbered(m, after, emitted, input) && input.freshRunId !in runs
    requires after.recent == if emitted.None? then m.recent else Bounded(m.recent + [emitted.value], limit)
    ensures IdsSound(after, runs + {input.freshRunId})
  {
    if emitted.Some? {
      IdsAppend(m.recent, m, after, emitted.value, input, runs);
      hide IdsUsed, Bounded;
      IdsBounded(m.recent + [emitted.value], after.captureRunId, after.nextFrameSetId, runs + {input.freshRunId},
          limit);
    }
  }

  lemma AttemptSound(config: Config, state: SyncState, input: Input, seen: set<string>, runs: set<string>)
    requires config.cameras != [] && Sound(config, state, seen, runs) && input.freshRunId !in runs
    ensures var attempt := Attempt(config, state, input);
            && RecentSound(attempt.state.matcher.recent, config.cameras, attempt.state.buffers, seen)
            && IdsSound(attempt.state.matcher, runs + {input.freshRunId})
  {
    var attempt := Attempt(config, state, input);
    AttemptNumbers(config, state, input);
    AttemptRecent(config, state, input);
    AttemptBuffers(config, state, input);
    hide Attempt, Best, Agrees, Buffered, KeysSeen, RecentSound, IdsSound, Numbered, BufferState.ConsumeThrough;
    hide Bounded;
    IdsAfter(state.matcher, attempt.state.matcher, attempt.emitted, input, runs, config.recentLimit);
    if attempt.emitted.Some? {
      var emitted := attempt.emitted.value;
      NewId(state.matcher, attempt.state.matcher, emitted, input, runs);
      EmittedFrames(config, state, input);
      RecentAfterEmitting(config, state.matcher.recent, state.buffers, emitted, seen);
      RecentBounded(state.matcher.recent + [emitted], config.cameras, attempt.state.buffers, seen, config.recentLimit);
    }
  }

  lemma EmittedFrames(config: Config, state: SyncState, input: Input)
    requires config.cameras != [] && Attempt(config, state, input).emitted.Some?
    ensures var emitted := Attempt(config, state, input).emitted.value;
            && Best(config, state) == Some(emitted.frames)
            && (forall d :: d in emitted.frames <==> d in config.cameras)
            && (forall d | d in emitted.frames :: emitted.frames[d] in state.buffers.Frames(d))
  {
    var emitted := Attempt(config, state, input).emitted.value;
    EmittedMember(config, state, input, config.cameras[0]);
    hide Attempt, Best, BufferState.Frames;
    forall d | d in emitted.frames ensures emitted.frames[d] in state.buffers.Frames(d) {
      EmittedMember(config, state, input, d);
    }
  }

  /** What the arriving frame, if it is stored, and its run id are assumed to be: new. */
  predicate Unseen(state: SyncState, input: Input, seen: set<string>, runs: set<string>)
  {
    && input.frame.mode == V2
    && (state.buffers.Accepts(Stored(input.frame)) ==> Stored(input.frame).bufferKey !in seen)
    && input.freshRunId !in runs
  }

  function SeenAfter(state: SyncState, input: Input, seen: set<string>): set<string>
  {
    if state.buffers.Accepts(Stored(input.frame)) then seen + {Stored(input.frame).bufferKey} else seen
  }

  lemma AddSound(config: Config, state: SyncState, input: Input, seen: set<string>, runs: set<string>)
    requires Sound(config, state, seen, runs) && Unseen(state, input, seen, runs)
    ensures var added := state.(buffers := state.buffers.AddFrame(Stored(input.frame)));
            Sound(config, added, SeenAfter(state, input, seen), runs)
  {
    var buffers, stored, more := state.buffers, Stored(input.frame), SeenAfter(state, input, seen);
    AgreesAfterAdd(buffers, stored);
    BufferedAfterAdd(buffers, stored);
    SoundAfterAdd(state.matcher.recent, config.cameras, buffers, stored, seen);
    SeenMore(state.matcher.recent, config.cameras, buffers.AddFrame(stored), seen, more);
    hide Agrees, Buffered, RecentSound, IdsSound, BufferState.AddFrame, BufferState.Accepts, Stored;
    forall k | k in buffers.AddFrame(stored).index ensures k in more {
      IndexAfterAdd(buffers, stored, k);
    }
  }

  lemma {:induction false} StepSound(
      config: Config, state: SyncState, input: Input, seen: set<string>, runs: set<string>)
    requires Sound(config, state, seen, runs) && Unseen(state, input, seen, runs)
    ensures var after := HandleFrame(config, true, state, input).state;
            Sound(config, after, SeenAfter(state, input, seen), runs + {input.freshRunId})
  {
    var stored, more := Stored(input.frame), SeenAfter(state, input, seen);
    var added := state.(buffers := state.buffers.AddFrame(stored));
    var after := HandleFrame(config, true, state, input).state;
    AddSound(config, state, input, seen, runs);
    StepBuffersSound(config, state, input, more);
    hide Agrees, Buffered, RecentSound, IdsSound, KeysSeen, BufferState.AddFrame, BufferState.Accepts, Stored;
    hide HandleFrame, SeenAfter, Unseen;
    if state.buffers.Accepts(stored) && config.cameras != [] && input.frame.deviceId in config.cameras {
      StepOnAttempt(config, true, state, input);
      AttemptSound(config, added, input, more, runs);
      PruneFewer(config, true, Attempt(config, added, input).state.buffers);
      hide Attempt, WithoutStale, Fewer;
      SoundWithFewer(after.matcher.recent, config.cameras, Attempt(config, added, input).state.buffers,
          after.buffers, more);
      IdsIgnoreCounts(Attempt(config, added, input).state.matcher, after.matcher, runs + {input.freshRunId});
    } else {
      StepWithout(config, true, state, input);
      IdsMoreRuns(state.matcher, after.matcher, runs, input.freshRunId);
    }
  }

  lemma IdsIgnoreCounts(m: MatcherState, after: MatcherState, runs: set<string>)
    requires IdsSound(m, runs)
    requires after.recent == m.recent && after.captureRunId == m.captureRunId
    requires after.nextFrameSetId == m.nextFrameSetId
    ensures IdsSound(after, runs)
  {
  }

  lemma IdsMoreRuns(m: MatcherState, after: MatcherState, runs: set<string>, run: string)
    requires IdsSound(m, runs)
    requires after.recent == m.recent && after.captureRunId == m.captureRunId
    requires after.nextFrameSetId == m.nextFrameSetId
    ensures IdsSound(after, runs + {run})
  {
  }

  lemma StepBuffersSound(config: Config, state: SyncState, input: Input, more: set<string>)
    requires Agrees(state.buffers) && Buffered(state.buffers) && input.frame.mode == V2
    requires KeysSeen(state.buffers.AddFrame(Stored(input.frame)), more)
    ensures var after := HandleFrame(config, true, state, input).state.buffers;
            Agrees(after) && Buffered(after) && KeysSeen(after, more)
  {
    hide Agrees, Buffered, HandleFrame, BufferState.AddFrame;
    ApplyArrived(config, state, input);
    AgreesAfterEvent(config, state, Arrived(input));
    BufferedAfterStep(config, true, state, input);
    StepKeepsIndexed(config, true, state, input);
  }
}

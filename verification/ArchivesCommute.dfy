/** Completions of archiving commute with each other and with the arrival of other frames. */
module ArchivesCommute {
  import opened Wrappers
  import opened Sequences
  import opened SyncModels
  import opened BufferSpec
  import opened SyncSpec
  import opened ArchiveSpec
  import opened IndexAgreement
  import opened BufferedFrames
  import opened ArchiveMarks
  import opened MarkedStates
  import opened ArchiveCompletion
  import opened ArchiveStates

  // ----- one completion: the buffers -----

  lemma MarkedOther(done: Done, frame: SyncFrame, key: string, archive: Archive)
    ensures frame.bufferKey != key ==> Marked(done[key := archive], frame) == Marked(done, frame)
    ensures frame.bufferKey == key ==> Marked(done[key := archive], frame) == Marked(done, frame).(archive := archive)
  {
  }

  lemma CompleteIndex(done: Done, buffers: BufferState, key: string, archive: Archive)
    requires Agrees(buffers)
    ensures MarkedBuffers(done, buffers).FinalizeArchive(key, archive).index
            == MarkedIndex(done[key := archive], buffers.index)
  {
    var a := MarkedBuffers(done, buffers).FinalizeArchive(key, archive).index;
    var b := MarkedIndex(done[key := archive], buffers.index);
    forall k | k in buffers.index ensures a[k] == b[k] {
      KeyOfIndexed(buffers, k);
      hide Agrees, Marked;
      MarkedOther(done, buffers.index[k], key, archive);
    }
    assert a == b;
  }

  lemma CompleteFrames(done: Done, buffers: BufferState, key: string, archive: Archive, d: string)
    requires Agrees(buffers) && Buffered(buffers) && d in buffers.cameras
    ensures MarkedBuffers(done, buffers).FinalizeArchive(key, archive).Camera(d).frames
            == MarkedSeq(done[key := archive], buffers.cameras[d].frames)
  {
    var frames, marked := buffers.cameras[d].frames, MarkedBuffers(done, buffers);
    assert frames == buffers.Frames(d);
    MarkedCameraOf(done, buffers, d);
    var after := marked.FinalizeArchive(key, archive).Camera(d).frames;
    if key in buffers.index {
      FinalizedCamera(marked, key, archive, d);
      assert marked.index[key] == Marked(done, buffers.index[key]);
    }
    hide BufferState.FinalizeArchive, BufferState.Camera, MarkedBuffers, Agrees, Buffered;
    forall i | 0 <= i < |frames| ensures after[i] == Marked(done[key := archive], frames[i]) {
      BufferedIsIndexed(buffers, d, frames[i]);
      MarkedOther(done, frames[i], key, archive);
      if key in buffers.index {
        KeyOfIndexed(buffers, key);
      }
    }
  }

  lemma CompleteCamera(done: Done, buffers: BufferState, key: string, archive: Archive, d: string)
    requires Agrees(buffers) && Buffered(buffers) && d in buffers.cameras
    ensures MarkedBuffers(done, buffers).FinalizeArchive(key, archive).Camera(d)
            == MarkedCamera(done[key := archive], buffers.cameras[d])
  {
    var marked := MarkedBuffers(done, buffers);
    CompleteFrames(done, buffers, key, archive, d);
    MarkedCameraOf(done, buffers, d);
    assert buffers.Camera(d) == buffers.cameras[d];
    if key in marked.index {
      FinalizedCamera(marked, key, archive, d);
    }
    hide MarkedBuffers, Agrees, Buffered, MarkedSeq, Replaced, BufferState.Camera;
  }

  lemma FinalizedRest(buffers: BufferState, key: string, archive: Archive)
    ensures var after := buffers.FinalizeArchive(key, archive);
            && after.(cameras := map[], index := map[]) == buffers.(cameras := map[], index := map[])
            && after.cameras.Keys == buffers.cameras.Keys
            && forall d | d in after.cameras :: after.cameras[d] == after.Camera(d)
  {
  }

  lemma CompleteBuffers(done: Done, buffers: BufferState, key: string, archive: Archive)
    requires Agrees(buffers) && Buffered(buffers)
    ensures MarkedBuffers(done, buffers).FinalizeArchive(key, archive) == MarkedBuffers(done[key := archive], buffers)
  {
    var a := MarkedBuffers(done, buffers).FinalizeArchive(key, archive);
    var b := MarkedBuffers(done[key := archive], buffers);
    CompleteIndex(done, buffers, key, archive);
    FinalizedRest(MarkedBuffers(done, buffers), key, archive);
    assert b.cameras.Keys == buffers.cameras.Keys == MarkedBuffers(done, buffers).cameras.Keys;
    hide Agrees, Buffered, MarkedCamera, MarkedIndex, BufferState.FinalizeArchive, BufferState.Camera;
    forall d | d in a.cameras ensures a.cameras[d] == b.cameras[d] {
      CompleteCamera(done, buffers, key, archive, d);
    }
    SameBuffers(a, b);
  }

  // ----- one completion: the recent sets -----

  lemma MarkedHolds(done: Done, emitted: FrameSet, key: string)
    ensures HoldsKey(MarkedSet(done, emitted), key) <==> HoldsKey(emitted, key)
  {
    hide SetArchiveState, SetArchiveErrors;
    var marked := MarkedSet(done, emitted);
    assert forall d | d in emitted.frames :: marked.frames[d].bufferKey == emitted.frames[d].bufferKey;
  }

  lemma MarkedSetsFront(done: Done, sets: seq<FrameSet>, n: nat)
    requires n < |sets|
    ensures MarkedSets(done, sets)[..n] == MarkedSets(done, sets[..n])
    ensures MarkedSets(done, sets)[n] == MarkedSet(done, sets[n])
  {
    hide MarkedSet;
  }

  lemma {:induction false} MarkedNewest(done: Done, recent: seq<FrameSet>, key: string)
    ensures NewestHolding(MarkedSets(done, recent), key) == NewestHolding(recent, key)
  {
    if recent != [] {
      hide MarkedSet, HoldsKey, MarkedSets;
      MarkedHolds(done, recent[|recent| - 1], key);
      MarkedNewest(done, recent[..|recent| - 1], key);
      MarkedSetsFront(done, recent, |recent| - 1);
    }
  }

  lemma {:induction false} NewestIs(recent: seq<FrameSet>, key: string)
    ensures var n := NewestHolding(recent, key);
            (n > 0 ==> HoldsKey(recent[n - 1], key)) && forall i | n <= i < |recent| :: !HoldsKey(recent[i], key)
  {
    hide HoldsKey;
    if recent != [] {
      NewestIs(recent[..|recent| - 1], key);
    }
  }

  lemma Untouched(done: Done, emitted: FrameSet, key: string, archive: Archive)
    requires !HoldsKey(emitted, key)
    ensures MarkedSet(done[key := archive], emitted) == MarkedSet(done, emitted)
  {
    hide SetArchiveState, SetArchiveErrors;
    forall d | d in emitted.frames
      ensures Marked(done[key := archive], emitted.frames[d]) == Marked(done, emitted.frames[d])
    {
      assert emitted.frames[d].bufferKey != key;
    }
    assert MarkedSelection(done[key := archive], emitted.frames) == MarkedSelection(done, emitted.frames);
  }

  lemma {:induction false} WithMemberIs(cameras: seq<string>, frames: Selection, frame: SyncFrame, d: string)
    requires d in cameras && d in frames && frames[d].bufferKey == frame.bufferKey
    requires forall e | e in frames && e != d :: frames[e].bufferKey != frame.bufferKey
    ensures WithMember(cameras, frames, frame) == frames[d := frame]
  {
    if cameras[0] != d {
      WithMemberIs(cameras[1..], frames, frame, d);
    }
  }

  lemma {:induction false} FindInSetIs(cameras: seq<string>, frames: Selection, key: string, d: string)
    requires d in cameras && d in frames && frames[d].bufferKey == key
    requires forall e | e in frames && e != d :: frames[e].bufferKey != key
    ensures FindInSet(cameras, frames, key) == Some(frames[d])
  {
    if cameras[0] != d {
      FindInSetIs(cameras[1..], frames, key, d);
    }
  }

  lemma {:induction false} FindInSetSays(cameras: seq<string>, frames: Selection, key: string)
    ensures var found := FindInSet(cameras, frames, key);
            found.Some? ==> found.value.bufferKey == key && exists d :: d in frames && frames[d] == found.value
  {
    if cameras != [] {
      FindInSetSays(cameras[1..], frames, key);
    }
  }

  lemma {:induction false} FindMemberIs(cameras: seq<string>, sets: seq<FrameSet>, i: nat, key: string, d: string)
    requires i < |sets| && d in cameras && d in sets[i].frames && sets[i].frames[d].bufferKey == key
    requires forall e | e in sets[i].frames && e != d :: sets[i].frames[e].bufferKey != key
    requires forall j | 0 <= j < i :: !HoldsKey(sets[j], key)
    ensures FindMember(cameras, sets, key) == Some(sets[i].frames[d])
  {
    FindInSetSays(cameras, sets[0].frames, key);
    if i == 0 {
      FindInSetIs(cameras, sets[0].frames, key, d);
    } else {
      FindMemberIs(cameras, sets[1..], i - 1, key, d);
    }
  }

  lemma {:induction false} FindMemberSays(cameras: seq<string>, sets: seq<FrameSet>, key: string)
    ensures FindMember(cameras, sets, key).Some? ==> FindMember(cameras, sets, key).value.bufferKey == key
  {
    if sets != [] {
      FindInSetSays(cameras, sets[0].frames, key);
      FindMemberSays(cameras, sets[1..], key);
    }
  }

  /** The member of a set that is stored under the key. */
  ghost predicate IsMember(emitted: FrameSet, cameras: seq<string>, key: string, d: string)
  {
    && d in cameras && d in emitted.frames && emitted.frames[d].bufferKey == key
    && forall e | e in emitted.frames && e != d :: emitted.frames[e].bufferKey != key
  }

  lemma MemberOfHolding(
      emitted: FrameSet, cameras: seq<string>, buffers: BufferState, seen: set<string>, key: string) returns (d: string)
    requires Retired(emitted, buffers, seen) && (forall d :: d in emitted.frames <==> d in cameras)
    requires HoldsKey(emitted, key)
    ensures IsMember(emitted, cameras, key, d)
  {
    hide RetiredMember;
    d :| d in emitted.frames && emitted.frames[d].bufferKey == key;
  }

  lemma MarkedMember(done: Done, emitted: FrameSet, cameras: seq<string>, key: string, d: string)
    requires IsMember(emitted, cameras, key, d)
    ensures IsMember(MarkedSet(done, emitted), cameras, key, d)
    ensures MarkedSet(done, emitted).frames[d] == Marked(done, emitted.frames[d])
  {
    hide SetArchiveState, SetArchiveErrors;
  }

  /** Replacing the completed member is marking the set with the new result. */
  lemma ReplaceMarks(config: Config, done: Done, emitted: FrameSet, key: string, archive: Archive, d: string)
    requires IsMember(emitted, config.cameras, key, d)
    ensures ReplaceFrameMember(config, MarkedSet(done, emitted), Marked(done, emitted.frames[d]).(archive := archive))
            == MarkedSet(done[key := archive], emitted)
  {
    var stored := Marked(done, emitted.frames[d]).(archive := archive);
    var marked := MarkedSelection(done, emitted.frames);
    MarkedMember(done, emitted, config.cameras, key, d);
    WithMemberIs(config.cameras, marked, stored, d);
    hide SetArchiveState, SetArchiveErrors, WithMember;
    var after := MarkedSelection(done[key := archive], emitted.frames);
    forall e | e in after ensures after[e] == marked[d := stored][e] {
      MarkedOther(done, emitted.frames[e], key, archive);
    }
    assert after == marked[d := stored];
  }

  lemma ReplaceOne(done: Done, recent: seq<FrameSet>, i: nat, updated: FrameSet, key: string, archive: Archive)
    requires i < |recent| && updated == MarkedSet(done[key := archive], recent[i])
    requires forall j | 0 <= j < |recent| && j != i :: !HoldsKey(recent[j], key) && !SameId(recent[j], recent[i])
    ensures ReplaceRecent(MarkedSets(done, recent), updated) == MarkedSets(done[key := archive], recent)
  {
    hide HoldsKey, SetArchiveState, SetArchiveErrors, MarkedSelection;
    var a, b := ReplaceRecent(MarkedSets(done, recent), updated), MarkedSets(done[key := archive], recent);
    forall j | 0 <= j < |recent| ensures a[j] == b[j] {
      if j != i { Untouched(done, recent[j], key, archive); }
    }
  }

  lemma ReplaceNone(done: Done, recent: seq<FrameSet>, updated: FrameSet, key: string, archive: Archive)
    requires forall j | 0 <= j < |recent| :: !HoldsKey(recent[j], key) && !SameId(recent[j], updated)
    ensures ReplaceRecent(MarkedSets(done, recent), updated) == MarkedSets(done[key := archive], recent)
    ensures MarkedSets(done, recent) == MarkedSets(done[key := archive], recent)
  {
    NoneHolds(done, recent, key, archive);
    hide HoldsKey, SetArchiveState, SetArchiveErrors, MarkedSelection;
    var a, b := ReplaceRecent(MarkedSets(done, recent), updated), MarkedSets(done, recent);
    forall j | 0 <= j < |recent| ensures a[j] == b[j] {
      assert MarkedSets(done, recent)[j] == MarkedSet(done, recent[j]);
    }
  }

  lemma NoneHolds(done: Done, recent: seq<FrameSet>, key: string, archive: Archive)
    requires forall j | 0 <= j < |recent| :: !HoldsKey(recent[j], key)
    ensures MarkedSets(done, recent) == MarkedSets(done[key := archive], recent)
  {
    hide HoldsKey, MarkedSet;
    var a, b := MarkedSets(done, recent), MarkedSets(done[key := archive], recent);
    forall j | 0 <= j < |recent| ensures a[j] == b[j] {
      Untouched(done, recent[j], key, archive);
    }
  }

  /** The set a caller passes along is not mistaken for a recent set with other members. */
  predicate GivenFits(recent: seq<FrameSet>, given: Option<FrameSet>, key: string)
  {
    given.Some? ==> forall i | 0 <= i < |recent| :: SameId(recent[i], given.value) ==> HoldsKey(recent[i], key)
  }

  lemma OnlyOneHolds(
      recent: seq<FrameSet>, cameras: seq<string>, buffers: BufferState, seen: set<string>, key: string, i: nat)
    requires RecentSound(recent, cameras, buffers, seen) && i < |recent| && HoldsKey(recent[i], key)
    ensures forall j | 0 <= j < |recent| && j != i :: !HoldsKey(recent[j], key) && !SameId(recent[j], recent[i])
  {
    var d :| d in recent[i].frames && recent[i].frames[d].bufferKey == key;
    hide Retired;
    forall j | 0 <= j < |recent| && j != i ensures !HoldsKey(recent[j], key) && !SameId(recent[j], recent[i]) {
      assert if i < j then Apart(recent[i], recent[j]) else Apart(recent[j], recent[i]);
    }
  }

  lemma {:induction false} FindInFirst(cameras: seq<string>, a: seq<FrameSet>, b: seq<FrameSet>, key: string)
    ensures FindMember(cameras, a, key).Some? ==> FindMember(cameras, a + b, key) == FindMember(cameras, a, key)
  {
    if a != [] {
      hide FindInSet;
      assert (a + b)[0] == a[0] && (a + b)[1..] == a[1..] + b;
      FindInFirst(cameras, a[1..], b, key);
    }
  }

  /** The completed frame, when a recent set holds it, is that set's member. */
  lemma CompletedIsMember(
    config: Config, done: Done, state: SyncState, key: string, given: Option<FrameSet>, i: nat, d: string,
    seen: set<string>, runs: set<string>)
    requires Sound(config, state, seen, runs) && i < |state.matcher.recent|
    requires IsMember(state.matcher.recent[i], config.cameras, key, d)
    ensures CompletedFrame(config, MarkedState(done, state), key, given)
            == Some(Marked(done, state.matcher.recent[i].frames[d]))
  {
    var recent := state.matcher.recent;
    var member := recent[i].frames[d];
    assert HoldsKey(recent[i], key);
    OnlyOneHolds(recent, config.cameras, state.buffers, seen, key, i);
    assert RetiredMember(member, state.buffers, seen) by { assert Retired(recent[i], state.buffers, seen); }
    if key !in state.buffers.index {
      MarkedMember(done, recent[i], config.cameras, key, d);
      hide Sound, HoldsKey, MarkedSet, RetiredMember, IsMember, RecentSound, SameId;
      forall j | 0 <= j < i ensures !HoldsKey(MarkedSets(done, recent)[j], key) {
        MarkedHolds(done, recent[j], key);
      }
      MarkedFound(config.cameras, MarkedSets(done, recent), i, key, d);
      hide MarkedSets;
      FindInFirst(config.cameras, MarkedSets(done, recent), AsSeq(given), key);
    }
  }

  lemma MarkedFound(cameras: seq<string>, sets: seq<FrameSet>, i: nat, key: string, d: string)
    requires i < |sets| && IsMember(sets[i], cameras, key, d)
    requires forall j | 0 <= j < i :: !HoldsKey(sets[j], key)
    ensures FindMember(cameras, sets, key) == Some(sets[i].frames[d])
  {
    FindMemberIs(cameras, sets, i, key, d);
  }

  lemma CompletedKey(config: Config, done: Done, state: SyncState, key: string, given: Option<FrameSet>)
    requires Agrees(state.buffers)
    ensures var found := CompletedFrame(config, MarkedState(done, state), key, given);
            found.Some? ==> found.value.bufferKey == key
  {
    if key in state.buffers.index {
      KeyOfIndexed(state.buffers, key);
    } else {
      hide FindMember, Agrees;
      FindMemberSays(config.cameras, MarkedState(done, state).matcher.recent + AsSeq(given), key);
    }
  }

  /** Whoever is stored under the key in a recent set is the completed frame. */
  ghost predicate StoredFrom(config: Config, done: Done, recent: seq<FrameSet>, stored: SyncFrame, archive: Archive)
  {
    forall i, d | 0 <= i < |recent| && IsMember(recent[i], config.cameras, stored.bufferKey, d) ::
      stored == Marked(done, recent[i].frames[d]).(archive := archive)
  }

  lemma ReplacedHeld(
    config: Config, done: Done, recent: seq<FrameSet>, buffers: BufferState, stored: SyncFrame, archive: Archive,
        seen: set<string>, n: nat)
    requires RecentSound(recent, config.cameras, buffers, seen)
    requires 0 < n <= |recent| && HoldsKey(recent[n - 1], stored.bufferKey)
    requires StoredFrom(config, done, recent, stored, archive)
    ensures ReplaceRecent(MarkedSets(done, recent), ReplaceFrameMember(config, MarkedSet(done, recent[n - 1]), stored))
            == MarkedSets(done[stored.bufferKey := archive], recent)
  {
    var key := stored.bufferKey;
    OnlyOneHolds(recent, config.cameras, buffers, seen, key, n - 1);
    hide HoldsKey, MarkedSet, IsMember, ReplaceFrameMember, ReplaceRecent, SameId, Retired, Apart, MarkedSets;
    var d := MemberOfHolding(recent[n - 1], config.cameras, buffers, seen, key);
    ReplaceMarks(config, done, recent[n - 1], key, archive, d);
    ReplaceOne(done, recent, n - 1, MarkedSet(done[key := archive], recent[n - 1]), key, archive);
  }

  lemma ReplacedGiven(
      config: Config, done: Done, recent: seq<FrameSet>, stored: SyncFrame, given: FrameSet, archive: Archive)
    requires forall j | 0 <= j < |recent| :: !HoldsKey(recent[j], stored.bufferKey)
    requires GivenFits(recent, Some(given), stored.bufferKey)
    ensures ReplaceRecent(MarkedSets(done, recent), ReplaceFrameMember(config, given, stored))
            == MarkedSets(done[stored.bufferKey := archive], recent)
  {
    var updated := ReplaceFrameMember(config, given, stored);
    assert forall j | 0 <= j < |recent| :: SameId(recent[j], updated) == SameId(recent[j], given);
    hide HoldsKey, MarkedSets, ReplaceFrameMember, ReplaceRecent;
    ReplaceNone(done, recent, updated, stored.bufferKey, archive);
  }

  /** The target of a completion, among the marked sets. */
  lemma MarkedTarget(done: Done, recent: seq<FrameSet>, given: Option<FrameSet>, key: string)
    ensures var n := NewestHolding(recent, key);
            Target(MarkedSets(done, recent), given, key)
            == if n > 0 then Some(MarkedSet(done, recent[n - 1])) else given
  {
    hide NewestHolding, MarkedSet, MarkedSets;
    MarkedNewest(done, recent, key);
    if NewestHolding(recent, key) > 0 {
      MarkedSetsFront(done, recent, NewestHolding(recent, key) - 1);
    }
  }

  /** What a completion makes of the marked recent sets. */
  lemma ReplacedRecent(
    config: Config, done: Done, recent: seq<FrameSet>, buffers: BufferState, stored: SyncFrame, given: Option<FrameSet>,
    archive: Archive, seen: set<string>)
    requires RecentSound(recent, config.cameras, buffers, seen)
    requires GivenFits(recent, given, stored.bufferKey) && StoredFrom(config, done, recent, stored, archive)
    ensures var marked := MarkedSets(done, recent);
            RecentAfter(marked, ReplaceTarget(config, marked, given, stored))
            == MarkedSets(done[stored.bufferKey := archive], recent)
  {
    var key := stored.bufferKey;
    var n := NewestHolding(recent, key);
    MarkedTarget(done, recent, given, key);
    NewestIs(recent, key);
    hide RecentSound, GivenFits, StoredFrom, HoldsKey, MarkedSet, MarkedSets, ReplaceRecent, ReplaceFrameMember;
    hide NewestHolding, Target;
    if n > 0 {
      ReplacedHeld(config, done, recent, buffers, stored, archive, seen, n);
    } else if given.Some? {
      ReplacedGiven(config, done, recent, stored, given.value, archive);
    } else {
      NoneHolds(done, recent, key, archive);
    }
  }

  // ----- one completion: the whole state -----

  /** A completion on a marked state marks the state with one more result. */
  lemma {:induction false} CompletionMarks(
    config: Config, done: Done, state: SyncState, frame: SyncFrame, given: Option<FrameSet>, archive: Archive,
    seen: set<string>, runs: set<string>)
    requires Sound(config, state, seen, runs) && GivenFits(state.matcher.recent, given, BuildBufferKey(frame))
    ensures FinalizeFrameArchive(config, MarkedState(done, state), frame, given, archive).state
            == MarkedState(done[BuildBufferKey(frame) := archive], state)
  {
    var key := BuildBufferKey(frame);
    var member := CompletedFrame(config, MarkedState(done, state), key, given);
    CompleteBuffers(done, state.buffers, key, archive);
    CompletedKey(config, done, state, key, given);
    hide BuildBufferKey, CompletedFrame, MarkedBuffers, MarkedSets, BufferState.FinalizeArchive, ReplaceTarget;
    hide RecentAfter, GivenFits;
    if member.None? {
      NotFoundNotHeld(config, done, state, key, given, seen, runs);
      NoneHolds(done, state.matcher.recent, key, archive);
    } else {
      var stored := member.value.(archive := archive);
      MembersComplete(config, done, state, key, given, stored, archive, seen, runs);
      ReplacedRecent(config, done, state.matcher.recent, state.buffers, stored, given, archive, seen);
    }
  }

  lemma MembersComplete(
    config: Config, done: Done, state: SyncState, key: string, given: Option<FrameSet>, stored: SyncFrame,
        archive: Archive,
    seen: set<string>, runs: set<string>)
    requires Sound(config, state, seen, runs) && stored.bufferKey == key
    requires CompletedFrame(config, MarkedState(done, state), key, given).Some?
    requires stored == CompletedFrame(config, MarkedState(done, state), key, given).value.(archive := archive)
    ensures StoredFrom(config, done, state.matcher.recent, stored, archive)
  {
    hide Sound, CompletedFrame, Marked;
    forall i, d | 0 <= i < |state.matcher.recent| && IsMember(state.matcher.recent[i], config.cameras, key, d)
      ensures stored == Marked(done, state.matcher.recent[i].frames[d]).(archive := archive)
    {
      CompletedIsMember(config, done, state, key, given, i, d, seen, runs);
    }
  }

  lemma NotFoundNotHeld(
    config: Config, done: Done, state: SyncState, key: string, given: Option<FrameSet>, seen: set<string>,
        runs: set<string>)
    requires Sound(config, state, seen, runs) && CompletedFrame(config, MarkedState(done, state), key, given).None?
    ensures forall j | 0 <= j < |state.matcher.recent| :: !HoldsKey(state.matcher.recent[j], key)
  {
    forall j | 0 <= j < |state.matcher.recent| ensures !HoldsKey(state.matcher.recent[j], key) {
      if HoldsKey(state.matcher.recent[j], key) {
        assert Retired(state.matcher.recent[j], state.buffers, seen);
        hide CompletedFrame, HoldsKey, Retired, MarkedState;
        var d := MemberOfHolding(state.matcher.recent[j], config.cameras, state.buffers, seen, key);
        CompletedIsMember(config, done, state, key, given, j, d, seen, runs);
      }
    }
  }

  // ----- whole runs -----

  function Arrivals(events: seq<Event>): seq<Input>
  {
    if events == [] then []
    else (if events[0].Arrived? then [events[0].input] else []) + Arrivals(events[1..])
  }

  /** The last result of each completed key. */
  function Results(done: Done, events: seq<Event>): Done
    decreases |events|
  {
    if events == [] then done
    else if events[0].Arrived? then Results(done, events[1..])
    else Results(done[BuildBufferKey(events[0].frame) := events[0].archive], events[1..])
  }

  /** No key is accepted twice, frames are V2, run ids are new, and a frame completes only
      after it was accepted. Judged along the run without completions. */
  ghost predicate Proper(config: Config, state: SyncState, events: seq<Event>, seen: set<string>, runs: set<string>)
    decreases |events|
  {
    events == [] ||
    match events[0]
    case Arrived(input) =>
      && Unseen(state, input, seen, runs)
      && Proper(config, HandleFrame(config, true, state, input).state, events[1..],
                SeenAfter(state, input, seen), runs + {input.freshRunId})
    case Completed(frame, given, archive) =>
      && BuildBufferKey(frame) in seen
      && GivenFits(state.matcher.recent, given, BuildBufferKey(frame))
      && Proper(config, state, events[1..], seen, runs)
  }

  /** The state without completions after the same arrivals. */
  ghost function Plain(config: Config, state: SyncState, events: seq<Event>): SyncState
  {
    Run(config, true, state, Arrivals(events)).state
  }

  lemma ArrivalMarks(
    config: Config, done: Done, state: SyncState, input: Input, seen: set<string>, runs: set<string>)
    requires Unseen(state, input, seen, runs) && done.Keys <= seen
    ensures Apply(config, MarkedState(done, state), Arrived(input))
            == MarkedState(done, HandleFrame(config, true, state, input).state)
    ensures done.Keys <= SeenAfter(state, input, seen)
  {
    ApplyArrived(config, MarkedState(done, state), input);
    MarkedStep(config, done, true, state, input);
    hide HandleFrame, MarkedState, Apply, Stored;
  }

  lemma CompletedApplies(
    config: Config, done: Done, state: SyncState, event: Event, seen: set<string>, runs: set<string>)
    requires event.Completed? && Sound(config, state, seen, runs)
    requires GivenFits(state.matcher.recent, event.given, BuildBufferKey(event.frame))
    ensures Apply(config, MarkedState(done, state), event)
            == MarkedState(done[BuildBufferKey(event.frame) := event.archive], state)
  {
    hide FinalizeFrameArchive, Sound, MarkedState, GivenFits, BuildBufferKey;
    CompletionMarks(config, done, state, event.frame, event.given, event.archive, seen, runs);
  }

  lemma PlainArrival(config: Config, state: SyncState, events: seq<Event>)
    requires events != []
    ensures Plain(config, state, events)
            == if events[0].Arrived?
               then Plain(config, HandleFrame(config, true, state, events[0].input).state, events[1..])
               else Plain(config, state, events[1..])
  {
    hide HandleFrame;
    var rest := Arrivals(events[1..]);
    if events[0].Arrived? {
      assert Arrivals(events)[0] == events[0].input && Arrivals(events)[1..] == rest;
    } else {
      EmptyLeft(rest);
    }
  }

  lemma {:induction false} PlayMarks(
    config: Config, done: Done, state: SyncState, events: seq<Event>, seen: set<string>, runs: set<string>)
    requires Sound(config, state, seen, runs) && Proper(config, state, events, seen, runs) && done.Keys <= seen
    ensures Play(config, MarkedState(done, state), events)
            == MarkedState(Results(done, events), Plain(config, state, events))
    decreases |events|
  {
    if events != [] {
      PlainArrival(config, state, events);
      match events[0]
      case Arrived(input) =>
        StepSound(config, state, input, seen, runs);
        ArrivalMarks(config, done, state, input, seen, runs);
        hide Sound, HandleFrame, MarkedState, Apply, SeenAfter, Unseen, Plain;
        PlayMarks(config, done, HandleFrame(config, true, state, input).state, events[1..],
                  SeenAfter(state, input, seen), runs + {input.freshRunId});
      case Completed(frame, given, archive) =>
        hide Sound, HandleFrame, MarkedState, Apply, Plain, BuildBufferKey, GivenFits;
        CompletedApplies(config, done, state, events[0], seen, runs);
        PlayMarks(config, done[BuildBufferKey(frame) := archive], state, events[1..], seen, runs);
    }
  }

  lemma InitiallySound(config: Config, size: nat, runId: string)
    requires size >= 1
    ensures Sound(config, Initial(size, runId), {}, {runId})
    ensures MarkedState(map[], Initial(size, runId)) == Initial(size, runId)
  {
    InitiallyBuffered(size);
    assert MarkedBuffers(map[], EmptyBuffers(size)).cameras == map[];
    assert MarkedIndex(map[], map[]) == map[];
  }

  /** A run with completions ends as the run without them, with the last result of every
      completed frame written into the buffers and the recent sets. */
  lemma {:induction false} CompletionsOnlyMark(config: Config, size: nat, runId: string, events: seq<Event>)
    requires size >= 1 && Proper(config, Initial(size, runId), events, {}, {runId})
    ensures Play(config, Initial(size, runId), events)
            == MarkedState(Results(map[], events), Plain(config, Initial(size, runId), events))
  {
    InitiallySound(config, size, runId);
    hide Sound, Proper, MarkedState, Play, Plain, Results;
    PlayMarks(config, map[], Initial(size, runId), events, {}, {runId});
  }

  /** The results that the completions bring, by key. */
  function Brought(events: seq<Event>): set<(string, Archive)>
  {
    set i | 0 <= i < |events| && events[i].Completed? :: (BuildBufferKey(events[i].frame), events[i].archive)
  }

  /** A key that completes more than once brings the same result each time. */
  predicate OneResultEach(events: seq<Event>)
  {
    forall p, q | p in Brought(events) && q in Brought(events) :: p.0 == q.0 ==> p.1 == q.1
  }

  lemma BroughtFirst(events: seq<Event>)
    requires events != []
    ensures Brought(events)
            == (if events[0].Completed? then {(BuildBufferKey(events[0].frame), events[0].archive)} else {})
               + Brought(events[1..])
  {
    hide BuildBufferKey;
    var first := if events[0].Completed? then {(BuildBufferKey(events[0].frame), events[0].archive)} else {};
    forall p | p in Brought(events) ensures p in first + Brought(events[1..]) {
      var i :| 0 <= i < |events| && events[i].Completed? && p == (BuildBufferKey(events[i].frame), events[i].archive);
      assert i > 0 ==> events[1..][i - 1] == events[i];
    }
    forall p | p in Brought(events[1..]) ensures p in Brought(events) {
      var i :| && 0 <= i < |events[1..]| && events[1..][i].Completed?
               && p == (BuildBufferKey(events[1..][i].frame), events[1..][i].archive);
      assert events[i + 1] == events[1..][i];
    }
  }

  /** What a key's result is does not depend on the order. */
  lemma {:induction false} ResultOf(done: Done, events: seq<Event>, k: string)
    requires OneResultEach(events)
    ensures forall x | (k, x) in Brought(events) :: k in Results(done, events) && Results(done, events)[k] == x
    ensures (forall x :: (k, x) !in Brought(events)) ==>
              (k in Results(done, events) <==> k in done)
              && (k in done ==> Results(done, events)[k] == done[k])
    decreases |events|
  {
    if events != [] {
      BroughtFirst(events);
      hide BuildBufferKey, Brought;
      assert forall p | p in Brought(events[1..]) :: p in Brought(events);
      if events[0].Arrived? {
        ResultOf(done, events[1..], k);
      } else {
        var key, archive := BuildBufferKey(events[0].frame), events[0].archive;
        assert (key, archive) in Brought(events);
        ResultOf(done[key := archive], events[1..], k);
      }
    }
  }

  /** The same completions in another order leave the same results. */
  lemma {:induction false} SameBroughtSameResults(done: Done, a: seq<Event>, b: seq<Event>)
    requires Brought(a) == Brought(b) && OneResultEach(a)
    ensures Results(done, a) == Results(done, b)
  {
    assert OneResultEach(b);
    hide Brought, Results, OneResultEach;
    forall k
      ensures k in Results(done, a) <==> k in Results(done, b)
      ensures k in Results(done, a) ==> Results(done, a)[k] == Results(done, b)[k]
    {
      ResultOf(done, a, k);
      ResultOf(done, b, k);
      if x :| (k, x) in Brought(a) {
        assert (k, x) in Brought(b);
      }
    }
  }

  lemma SameResultsSameState(config: Config, size: nat, runId: string, a: seq<Event>, b: seq<Event>)
    requires size >= 1
    requires Proper(config, Initial(size, runId), a, {}, {runId})
    requires Proper(config, Initial(size, runId), b, {}, {runId})
    requires Arrivals(a) == Arrivals(b) && Results(map[], a) == Results(map[], b)
    ensures Play(config, Initial(size, runId), a) == Play(config, Initial(size, runId), b)
  {
    CompletionsOnlyMark(config, size, runId, a);
    CompletionsOnlyMark(config, size, runId, b);
    hide Proper, MarkedState, Play, Results, Run;
  }

  /** So the same arrivals and the same completions end in the same state, whatever the order
      of the completions among themselves and against the arrivals. */
  lemma {:induction false} CompletionsCommute(config: Config, size: nat, runId: string, a: seq<Event>, b: seq<Event>)
    requires size >= 1
    requires Proper(config, Initial(size, runId), a, {}, {runId})
    requires Proper(config, Initial(size, runId), b, {}, {runId})
    requires Arrivals(a) == Arrivals(b) && Brought(a) == Brought(b) && OneResultEach(a)
    ensures Play(config, Initial(size, runId), a) == Play(config, Initial(size, runId), b)
  {
    hide *;
    SameBroughtSameResults(map[], a, b);
    SameResultsSameState(config, size, runId, a, b);
  }

  /** Two completions of different frames leave the same results in either order. */
  lemma {:induction false} ResultsCommute(done: Done, before: seq<Event>, x: Event, y: Event, after: seq<Event>)
    requires x.Completed? && y.Completed? && BuildBufferKey(x.frame) != BuildBufferKey(y.frame)
    ensures Results(done, before + [x, y] + after) == Results(done, before + [y, x] + after)
    decreases |before|
  {
    var k, l := BuildBufferKey(x.frame), BuildBufferKey(y.frame);
    if before == [] {
      assert done[k := x.archive][l := y.archive] == done[l := y.archive][k := x.archive];
      assert forall p: Event, q: Event :: ([] + [p, q] + after)[0] == p && ([] + [p, q] + after)[1..] == [q] + after;
      assert forall q: Event :: ([q] + after)[1..] == after;
    } else {
      assert (before + [x, y] + after)[1..] == before[1..] + [x, y] + after;
      assert (before + [y, x] + after)[1..] == before[1..] + [y, x] + after;
      hide BuildBufferKey;
      if before[0].Arrived? {
        ResultsCommute(done, before[1..], x, y, after);
      } else {
        ResultsCommute(done[BuildBufferKey(before[0].frame) := before[0].archive], before[1..], x, y, after);
      }
    }
  }

  /** What the recent sets then say: every completed member carries its result, the manifest
      is the one recorded at the match, and state and errors follow from the members. */
  lemma {:induction false} RecentSetsTell(config: Config, size: nat, runId: string, events: seq<Event>, i: nat)
    requires size >= 1 && Proper(config, Initial(size, runId), events, {}, {runId})
    requires i < |Play(config, Initial(size, runId), events).matcher.recent|
    ensures var recent := Play(config, Initial(size, runId), events).matcher.recent[i];
            var plain := Plain(config, Initial(size, runId), events).matcher.recent;
            var results := Results(map[], events);
            && i < |plain|
            && StateFollows(recent)
            && recent.manifest == plain[i].manifest
            && recent.frames.Keys == plain[i].frames.Keys
            && forall d | d in recent.frames ::
                 var key := plain[i].frames[d].bufferKey;
                 recent.frames[d]
                 == if key in results then plain[i].frames[d].(archive := results[key]) else plain[i].frames[d]
  {
    CompletionsOnlyMark(config, size, runId, events);
    hide Proper, Play, Plain, Results, SetArchiveState, SetArchiveErrors, StateFollows;
    DerivedFollows(Play(config, Initial(size, runId), events).matcher.recent[i]);
  }
}

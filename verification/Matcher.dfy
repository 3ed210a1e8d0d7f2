/** The matcher as the collector runs it: an object that looks for a candidate on every
    stored frame, consumes it, numbers it, remembers it and prunes the buffers. */
module Matcher {
  import opened Wrappers
  import opened SyncModels
  import opened BufferSpec
  import opened FrameOrder
  import opened MinSpanSweep
  import opened IdentityResolution
  import opened FrameBuffer
  import opened SyncSpec
  import opened ArchiveSpec
  import opened Quiescence

  /** The earliest and the latest timestamp of the chosen members. */
  method Extremes(cameras: seq<string>, frames: Selection) returns (earliestMs: int, latestMs: int)
    requires cameras != [] && frames != map[] && forall d :: d in cameras <==> d in frames
    ensures earliestMs == Earliest(frames) && latestMs == Latest(frames)
  {
    ghost var first, last := cameras[0], cameras[0];
    earliestMs, latestMs := frames[cameras[0]].timestampMs, frames[cameras[0]].timestampMs;
    for i := 0 to |cameras|
      invariant first in frames && last in frames
      invariant earliestMs == frames[first].timestampMs && latestMs == frames[last].timestampMs
      invariant forall j | 0 <= j < i :: earliestMs <= frames[cameras[j]].timestampMs <= latestMs
    {
      assert cameras[i] in frames;
      var timestampMs := frames[cameras[i]].timestampMs;
      if timestampMs < earliestMs {
        earliestMs, first := timestampMs, cameras[i];
      }
      if timestampMs > latestMs {
        latestMs, last := timestampMs, cameras[i];
      }
    }
    forall d | d in frames ensures frames[first].timestampMs <= frames[d].timestampMs <= frames[last].timestampMs {
      assert d in cameras;
      var j :| 0 <= j < |cameras| && cameras[j] == d;
    }
    SpanIs(frames, first, last);
  }

  /** Of distinct cameras all are known exactly when as many are known as there are. */
  lemma {:induction false} AllKnown(cameras: seq<string>, known: set<string>)
    requires Distinct(cameras) && forall d | d in known :: d in cameras
    ensures |known| <= |cameras| && (|known| == |cameras| <==> forall d | d in cameras :: d in known)
  {
    if cameras == [] {
      assert known == {};
    } else {
      var head, tail := cameras[0], cameras[1..];
      var rest := known - {head};
      assert cameras == [head] + tail && head !in tail && Distinct(tail);
      hide Distinct;
      AllKnown(tail, rest);
      if head in known {
        assert known == rest + {head};
      } else {
        assert known == rest && head in cameras;
      }
    }
  }

  lemma {:induction false} WatermarkIs(buffers: BufferState, cameras: seq<string>, least: string)
    requires cameras != [] && AllSeen(buffers, cameras) && least in cameras
    requires forall d | d in cameras ::
      buffers.Camera(least).lastTimestampMs.value <= buffers.Camera(d).lastTimestampMs.value
    ensures Watermark(buffers, cameras) == buffers.Camera(least).lastTimestampMs.value
  {
    WatermarkIsLeast(buffers, cameras, least);
    WatermarkIsSome(buffers, cameras);
  }

  lemma {:induction false} WatermarkIsSome(buffers: BufferState, cameras: seq<string>)
    requires cameras != [] && AllSeen(buffers, cameras)
    ensures exists d | d in cameras :: Watermark(buffers, cameras) == buffers.Camera(d).lastTimestampMs.value
  {
    assert cameras[0] in cameras;
    if |cameras| > 1 {
      WatermarkIsSome(buffers, cameras[1..]);
      var d :| d in cameras[1..] && Watermark(buffers, cameras[1..]) == buffers.Camera(d).lastTimestampMs.value;
      assert d in cameras;
    }
  }

  /** How many recent sets there are up to and including the newest that holds the key. */
  method FindNewest(recent: seq<FrameSet>, key: string) returns (n: nat)
    ensures n == NewestHolding(recent, key)
  {
    hide HoldsKey;
    n := |recent|;
    assert recent[..n] == recent;
    while n > 0 && !HoldsKey(recent[n - 1], key)
      invariant n <= |recent| && NewestHolding(recent, key) == NewestHolding(recent[..n], key)
    {
      assert recent[..n][..n - 1] == recent[..n - 1];
      n := n - 1;
    }
  }

  /** What the manifest of a set records about its members and their span. */
  method BuildManifest(cameras: seq<string>, frames: Selection, spanMs: int, identity: CaptureIdentity, windowMs: int)
    returns (manifest: ManifestPayload)
    requires cameras != [] && frames != map[] && (forall d :: d in cameras <==> d in frames) && spanMs == Span(frames)
    ensures manifest == ManifestOf(identity, frames, windowMs)
  {
    var earliestMs, latestMs := Extremes(cameras, frames);
    hide Span, Latest, Earliest, ManifestMemberOf;
    manifest := ManifestPayload(
      identity.mode, identity.sessionId, identity.authorization, windowMs, spanMs, latestMs, earliestMs,
      map d | d in frames :: ManifestMemberOf(frames[d]));
  }

  /** The swept selection, unless its span exceeds the window. */
  method SelectWithin(lists: Stock, windowMs: int) returns (best: Option<Selection>, spanMs: int)
    requires Stocked(lists) && InOrder(lists)
    ensures best == Candidate(lists, windowMs)
    ensures best.Some? ==> best.value != map[] && spanMs == Span(best.value)
  {
    var selected, leastMs := SelectMinSpan(lists);
    hide Stocked, InOrder, Sweep, Span;
    best, spanMs := if leastMs <= windowMs then Some(selected) else None, leastMs;
  }

  function WatermarkOf(buffers: BufferState, cameras: seq<string>): Option<int>
    requires cameras != []
  {
    if AllSeen(buffers, cameras) then Some(Watermark(buffers, cameras)) else None
  }

  function DropBefore(config: Config, state: SyncState, cutoffMs: int): SyncState
  {
    var kept := state.buffers.KeepFrom(config.cameras, cutoffMs);
    SyncState(kept, state.matcher.(droppedStaleCount := state.matcher.droppedStaleCount
      + (state.buffers.FrameTotal(config.cameras) - kept.FrameTotal(config.cameras))))
  }

  lemma PruneIs(config: Config, state: SyncState)
    requires config.cameras != []
    ensures var watermarkMs := WatermarkOf(state.buffers, config.cameras);
            Prune(config, true, state)
            == if watermarkMs.Some? then DropBefore(config, state, watermarkMs.value - config.windowMs) else state
  {
    hide BufferState.KeepFrom, BufferState.FrameTotal, AllSeen, Watermark;
  }

  lemma MembersBuffered(buffers: BufferState, cameras: seq<string>, frames: Selection)
    requires IsSelection(Offer(buffers, cameras), frames)
    ensures forall d | d in frames :: d in buffers.cameras
  {
    forall d | d in frames ensures d in buffers.cameras {
      assert d in Offer(buffers, cameras) && frames[d] in Offer(buffers, cameras)[d];
      assert frames[d] in buffers.Frames(d);
    }
  }

  class SyncMatcher {
    const bufferManager: SyncFrameBufferManager
    const expectedCameras: seq<string>
    const windowMs: int
    const recentLimit: nat
    var nextFrameSetId: int
    var captureSessionId: Option<CaptureSessionId>
    var captureConfigKey: Option<multiset<(string, string)>>
    var authorizationKey: Option<AuthorizationKey>
    var captureRunId: string
    var lastSynchronizedAtMs: int
    var recentFrameSets: seq<FrameSet>
    var matchedCount: nat
    var missedCount: nat
    var ignoredCount: nat
    var droppedStaleCount: int
    var droppedSupersededCount: nat

    function Settings(): Config
    {
      Config(expectedCameras, windowMs, recentLimit)
    }

    ghost predicate Valid()
      reads bufferManager`buffers
    {
      bufferManager.Valid() && Distinct(expectedCameras)
    }

    function Progress(): MatcherState
      reads this
    {
      MatcherState(
        nextFrameSetId, captureSessionId, captureConfigKey, authorizationKey, captureRunId, lastSynchronizedAtMs,
        recentFrameSets, matchedCount, missedCount, ignoredCount, droppedStaleCount, droppedSupersededCount)
    }

    ghost function State(): SyncState
      reads this, bufferManager, bufferManager.buffers.Values
    {
      SyncState(bufferManager.State(), Progress())
    }

    constructor (
      bufferManager: SyncFrameBufferManager, expectedCameras: seq<string>, windowMs: int, recentLimit: nat,
      runId: string)
      requires bufferManager.Valid() && Distinct(expectedCameras)
      ensures Valid() && this.bufferManager == bufferManager
      ensures Settings() == Config(expectedCameras, windowMs, recentLimit)
      ensures State() == SyncState(bufferManager.State(), InitialMatcher(runId))
    {
      this.bufferManager := bufferManager;
      this.expectedCameras := expectedCameras;
      this.windowMs := windowMs;
      this.recentLimit := recentLimit;
      nextFrameSetId := 1;
      captureSessionId := None;
      captureConfigKey := None;
      authorizationKey := None;
      captureRunId := runId;
      lastSynchronizedAtMs := 0;
      recentFrameSets := [];
      matchedCount := 0;
      missedCount := 0;
      ignoredCount := 0;
      droppedStaleCount := 0;
      droppedSupersededCount := 0;
    }

    /** The candidates of every expected camera, unless some camera has none. */
    method CandidateLists() returns (lists: Stock, missing: bool)
      requires Valid()
      ensures missing == SomeEmpty(bufferManager.State(), expectedCameras)
      ensures !missing ==> lists == Offer(bufferManager.State(), expectedCameras)
    {
      lists, missing := map[], false;
      ghost var buffers := bufferManager.State();
      assert Offer(buffers, []) == map[];
      for i := 0 to |expectedCameras|
        invariant missing == SomeEmpty(buffers, expectedCameras[..i])
        invariant !missing ==> lists == Offer(buffers, expectedCameras[..i])
      {
        var frames := bufferManager.AvailableFrames(expectedCameras[i]);
        assert frames == SortFrames(buffers.Frames(expectedCameras[i]));
        hide *;
        OfferNext(buffers, expectedCameras, i);
        if frames == [] {
          missing := true;
        } else {
          lists := lists[expectedCameras[i] := frames];
        }
      }
      assert expectedCameras[..|expectedCameras|] == expectedCameras;
    }

    /** The selection of least span, if it fits the window. */
    method SelectMinSpanCandidate() returns (best: Option<Selection>, spanMs: int)
      requires Valid() && expectedCameras != []
      ensures best == Best(Settings(), State())
      ensures best.Some? ==> best.value != map[] && spanMs == Span(best.value)
    {
      hide SyncFrameBufferManager.State, Candidate, Offer, SomeEmpty;
      best, spanMs := None, 0;
      var lists, missing := CandidateLists();
      BestIs(Settings(), State());
      if !missing {
        best, spanMs := SelectWithin(lists, windowMs);
      }
    }

    /** The members of a candidate come from buffers that exist. */
    method BufferedCandidate() returns (best: Option<Selection>, spanMs: int)
      requires Valid() && expectedCameras != []
      ensures best == Best(Settings(), State())
      ensures best.Some? ==> best.value != map[] && spanMs == Span(best.value)
      ensures best.Some? ==> forall d | d in best.value :: d in bufferManager.buffers
    {
      best, spanMs := SelectMinSpanCandidate();
      ghost var state := State();
      assert state.buffers.cameras.Keys == bufferManager.buffers.Keys;
      if best.Some? {
        hide *;
        BestBuffered(Settings(), state);
      }
    }

    method RecordMiss()
      modifies this`missedCount
      ensures Progress() == old(Progress()).(missedCount := old(Progress()).missedCount + 1)
    {
      missedCount := missedCount + 1;
    }

    /** Another capture starts another run, numbered from one. */
    method NoteIdentity(identity: CaptureIdentity, freshRunId: string)
      modifies this`captureRunId, this`nextFrameSetId, this`captureSessionId, this`captureConfigKey,
          this`authorizationKey
      ensures Progress() == ForIdentity(old(Progress()), identity, freshRunId)
    {
      if identity.sessionId.Some? && captureSessionId.Some?
         && (|| identity.sessionId != captureSessionId
             || identity.configKey != captureConfigKey
             || identity.authorization != authorizationKey)
      {
        captureRunId := freshRunId;
        nextFrameSetId := 1;
      }
      if identity.sessionId.Some? {
        captureSessionId := identity.sessionId;
        captureConfigKey := identity.configKey;
        authorizationKey := identity.authorization;
      }
    }

    /** The set, numbered and timed. */
    method NewFrameSet(
        frames: Selection, spanMs: int, identity: CaptureIdentity, nowMs: int) returns (frameSet: FrameSet)
      requires expectedCameras != [] && frames != map[] && (forall d :: d in expectedCameras <==> d in frames)
      requires spanMs == Span(frames)
      ensures frameSet == FrameSetOf(Progress(), identity, frames, windowMs, nowMs)
    {
      var manifest := BuildManifest(expectedCameras, frames, spanMs, identity, windowMs);
      hide SetArchiveState, SetArchiveErrors, Span, Latest, Earliest;
      frameSet := FrameSet(
        nextFrameSetId, captureRunId, if nowMs > lastSynchronizedAtMs + 1 then nowMs else lastSynchronizedAtMs + 1,
        frames, spanMs, manifest.anchorTimestampMs, identity, manifest, SetArchiveState(frames),
            SetArchiveErrors(frames));
    }

    method Remember(frameSet: FrameSet, superseded: nat)
      modifies this`lastSynchronizedAtMs, this`nextFrameSetId, this`matchedCount, this`recentFrameSets,
          this`droppedSupersededCount
      ensures Progress() == AfterEmitting(old(Progress()), frameSet, recentLimit, superseded)
    {
      lastSynchronizedAtMs := frameSet.synchronizedAtMs;
      nextFrameSetId := nextFrameSetId + 1;
      matchedCount := matchedCount + 1;
      recentFrameSets := Bounded(recentFrameSets + [frameSet], recentLimit);
      droppedSupersededCount := droppedSupersededCount + superseded;
    }

    /** The set joins the recent sets of its capture run. */
    method Number(
        frames: Selection, spanMs: int, identity: CaptureIdentity, nowMs: int, freshRunId: string, superseded: nat)
      returns (frameSet: FrameSet)
      requires expectedCameras != [] && frames != map[] && (forall d :: d in expectedCameras <==> d in frames)
      requires spanMs == Span(frames)
      modifies this
      ensures frameSet
              == FrameSetOf(ForIdentity(old(Progress()), identity, freshRunId), identity, frames, windowMs, nowMs)
      ensures Progress()
              == AfterEmitting(ForIdentity(old(Progress()), identity, freshRunId), frameSet, recentLimit, superseded)
    {
      NoteIdentity(identity, freshRunId);
      frameSet := NewFrameSet(frames, spanMs, identity, nowMs);
      Remember(frameSet, superseded);
    }

    /** The latest timestamp of the camera that lags most, once every expected camera has been seen. */
    method CurrentWatermark() returns (watermarkMs: Option<int>)
      requires Valid() && expectedCameras != []
      ensures watermarkMs == WatermarkOf(bufferManager.State(), expectedCameras)
    {
      ghost var buffers := bufferManager.State();
      var latest := bufferManager.LatestTimestamps(expectedCameras);
      hide SyncFrameBufferManager.State;
      AllKnown(expectedCameras, latest.Keys);
      if |latest| != |expectedCameras| {
        return None;
      }
      var leastMs := LeastTimestamp(buffers, latest);
      return Some(leastMs);
    }

    method DropStale(watermarkMs: int)
      requires Valid() && expectedCameras != []
      modifies this`droppedStaleCount, bufferManager.buffers.Values
      ensures Valid()
      ensures State() == DropBefore(Settings(), old(State()), watermarkMs - windowMs)
    {
      hide SyncFrameBufferManager.State, BufferState.KeepFrom, BufferState.FrameTotal;
      var dropped := bufferManager.DropFramesOlderThan(expectedCameras, watermarkMs - windowMs);
      droppedStaleCount := droppedStaleCount + dropped;
    }

    /** Frames too old for the slowest camera leave the buffers. */
    method DropStaleFrames()
      requires Valid() && expectedCameras != []
      modifies this`droppedStaleCount, bufferManager.buffers.Values
      ensures Valid()
      ensures State() == Prune(Settings(), true, old(State()))
    {
      ghost var before := State();
      var watermarkMs := CurrentWatermark();
      assert before == State();
      PruneIs(Settings(), before);
      hide SyncFrameBufferManager.State, DropBefore, WatermarkOf, Prune;
      if watermarkMs.Some? {
        DropStale(watermarkMs.value);
      }
    }

    method LeastTimestamp(ghost buffers: BufferState, latest: map<string, int>) returns (leastMs: int)
      requires expectedCameras != [] && AllSeen(buffers, expectedCameras)
      requires forall d | d in expectedCameras :: d in latest && latest[d] == buffers.Camera(d).lastTimestampMs.value
      ensures leastMs == Watermark(buffers, expectedCameras)
    {
      ghost var least := expectedCameras[0];
      assert least in expectedCameras;
      leastMs := latest[expectedCameras[0]];
      for i := 0 to |expectedCameras|
        invariant least in expectedCameras && leastMs == latest[least]
        invariant forall j | 0 <= j < i :: leastMs <= latest[expectedCameras[j]]
      {
        if latest[expectedCameras[i]] < leastMs {
          leastMs, least := latest[expectedCameras[i]], expectedCameras[i];
        }
      }
      WatermarkIs(buffers, expectedCameras, least);
    }

    /** Looks for a candidate and, if its members belong to one capture, emits it. */
    method Attempt(ghost input: Input, nowMs: int, freshRunId: string) returns (result: Option<FrameSet>)
      requires Valid() && expectedCameras != [] && input.nowMs == nowMs && input.freshRunId == freshRunId
      modifies this, bufferManager.buffers.Values
      ensures Valid()
      ensures Outcome(State(), result) == SyncSpec.Attempt(Settings(), old(State()), input)
    {
      hide SyncFrameBufferManager.State, SyncSpec.Emit, Best, Resolve;
      var best, spanMs := BufferedCandidate();
      if best.None? {
        RecordMiss();
        return None;
      }
      match Resolve(Members(expectedCameras, best.value))
      case ScopeConflict(_) =>
        RecordMiss();
        return None;
      case Resolved(identity) =>
        var emitted := Emit(best.value, spanMs, identity, input, nowMs, freshRunId);
        return Some(emitted);
    }

    method Emit(
        frames: Selection, spanMs: int, identity: CaptureIdentity, ghost input: Input, nowMs: int, freshRunId: string)
      returns (emitted: FrameSet)
      requires Valid() && expectedCameras != [] && input.nowMs == nowMs && input.freshRunId == freshRunId
      requires frames != map[] && (forall d :: d in expectedCameras <==> d in frames) && spanMs == Span(frames)
      requires forall d | d in frames :: d in bufferManager.buffers
      modifies this, bufferManager.buffers.Values
      ensures Valid()
      ensures Outcome(State(), Some(emitted)) == SyncSpec.Emit(Settings(), old(State()), frames, identity, input)
    {
      hide SyncFrameBufferManager.State, ForIdentity, FrameSetOf, AfterEmitting;
      hide BufferState.ConsumeThrough, BufferState.SupersededTotal;
      ghost var before := bufferManager.State();
      var superseded := bufferManager.ConsumeThrough(expectedCameras, frames);
      ghost var consumed := bufferManager.State();
      emitted := Number(frames, spanMs, identity, nowMs, freshRunId, superseded);
      assert bufferManager.State() == consumed;
    }

    /** One match attempt for a frame that was just stored. */
    method TryMatch(
        trigger: SyncFrame, ghost input: Input, nowMs: int, freshRunId: string) returns (result: Option<FrameSet>)
      requires Valid() && input.frame.deviceId == trigger.deviceId && input.nowMs == nowMs
      requires input.freshRunId == freshRunId
      modifies this, bufferManager.buffers.Values
      ensures Valid()
      ensures Outcome(State(), result) == SyncSpec.TryMatch(Settings(), true, old(State()), input)
    {
      if expectedCameras == [] {
        RecordMiss();
        return None;
      }
      if trigger.deviceId !in expectedCameras {
        ignoredCount := ignoredCount + 1;
        return None;
      }
      result := Attempt(input, nowMs, freshRunId);
      DropStaleFrames();
    }

    /** The first member stored under the frame's key gives way to the frame. */
    method ReplaceFrameMember(frameSet: FrameSet, frame: SyncFrame) returns (updated: FrameSet)
      modifies this`recentFrameSets
      ensures updated == ArchiveSpec.ReplaceFrameMember(Settings(), frameSet, frame)
      ensures Progress() == old(Progress()).(recent := ReplaceRecent(old(recentFrameSets), updated))
    {
      var frames := frameSet.frames;
      var i := 0;
      while i < |expectedCameras|
             && !(expectedCameras[i] in frames && frames[expectedCameras[i]].bufferKey == frame.bufferKey)
        invariant i <= |expectedCameras| && frames == frameSet.frames
        invariant WithMember(expectedCameras, frames, frame) == WithMember(expectedCameras[i..], frames, frame)
      {
        i := i + 1;
      }
      if i < |expectedCameras| {
        frames := frames[expectedCameras[i] := frame];
      }
      updated := WithFrames(frameSet, frames);
      recentFrameSets := ReplaceRecent(recentFrameSets, updated);
    }

    /** The newest recent set that holds the frame's key is updated. */
    method ReplaceRecentFrameMember(frame: SyncFrame) returns (result: Option<FrameSet>)
      modifies this`recentFrameSets
      ensures var target := Target(old(recentFrameSets), None, frame.bufferKey);
              && result
                 == (if target.Some? then Some(ArchiveSpec.ReplaceFrameMember(Settings(), target.value, frame))
                     else None)
              && Progress() == old(Progress()).(recent := RecentAfter(old(recentFrameSets), result))
    {
      var n := FindNewest(recentFrameSets, frame.bufferKey);
      if n == 0 {
        return None;
      }
      var updated := ReplaceFrameMember(recentFrameSets[n - 1], frame);
      return Some(updated);
    }
  }

  lemma BestIs(config: Config, state: SyncState)
    requires config.cameras != []
    ensures var offer, best := Offer(state.buffers, config.cameras), Best(config, state);
            && best == Candidate(offer, config.windowMs)
            && (SomeEmpty(state.buffers, config.cameras) ==> best == None)
            && (!SomeEmpty(state.buffers, config.cameras) ==> Stocked(offer) && InOrder(offer))
  {
    OfferStocked(state.buffers, config.cameras);
    OfferedAsHeld(state.buffers, config.cameras, map[]);
    hide Offer, SomeEmpty, InOrder, Stocked, Sweep;
  }

  lemma BestBuffered(config: Config, state: SyncState)
    requires config.cameras != [] && Best(config, state).Some?
    ensures forall d | d in Best(config, state).value :: d in state.buffers.cameras
  {
    SweepSelects(Offer(state.buffers, config.cameras));
    MembersBuffered(state.buffers, config.cameras, Best(config, state).value);
  }

  predicate SomeEmpty(buffers: BufferState, cameras: seq<string>)
  {
    exists i | 0 <= i < |cameras| :: buffers.Frames(cameras[i]) == []
  }

  lemma OfferNext(buffers: BufferState, cameras: seq<string>, i: nat)
    requires i < |cameras|
    ensures var frames := SortFrames(buffers.Frames(cameras[i]));
            && SomeEmpty(buffers, cameras[..i + 1]) == (SomeEmpty(buffers, cameras[..i]) || frames == [])
            && Offer(buffers, cameras[..i + 1]) == Offer(buffers, cameras[..i])[cameras[i] := frames]
  {
    assert cameras[..i + 1] == cameras[..i] + [cameras[i]];
    var a := Offer(buffers, cameras[..i + 1]);
    var b := Offer(buffers, cameras[..i])[cameras[i] := SortFrames(buffers.Frames(cameras[i]))];
    assert a.Keys == b.Keys;
    assert |SortFrames(buffers.Frames(cameras[i]))| == |buffers.Frames(cameras[i])|;
    hide SortFrames;
    assert a == b;
    EmptyNext(buffers, cameras, i);
  }

  lemma EmptyNext(buffers: BufferState, cameras: seq<string>, i: nat)
    requires i < |cameras|
    ensures SomeEmpty(buffers, cameras[..i + 1])
            == (SomeEmpty(buffers, cameras[..i]) || buffers.Frames(cameras[i]) == [])
  {
    hide BufferState.Frames;
    if SomeEmpty(buffers, cameras[..i + 1]) {
      var j :| 0 <= j < i + 1 && buffers.Frames(cameras[..i + 1][j]) == [];
      assert j < i ==> cameras[..i][j] == cameras[j];
    }
    if SomeEmpty(buffers, cameras[..i]) {
      var j :| 0 <= j < i && buffers.Frames(cameras[..i][j]) == [];
      assert cameras[..i + 1][j] == cameras[j];
    }
    assert cameras[..i + 1][i] == cameras[i];
  }

  lemma OfferStocked(buffers: BufferState, cameras: seq<string>)
    requires cameras != []
    ensures Stocked(Offer(buffers, cameras)) <==> !SomeEmpty(buffers, cameras)
  {
    var offer := Offer(buffers, cameras);
    hide BufferState.Frames, SortFrames;
    assert cameras[0] in offer;
    forall d | d in cameras ensures offer[d] == [] <==> buffers.Frames(d) == [] {
      assert |offer[d]| == |buffers.Frames(d)|;
    }
    if Stocked(offer) {
      forall i | 0 <= i < |cameras| ensures buffers.Frames(cameras[i]) != [] {
        assert cameras[i] in offer;
      }
    }
    forall d | d in offer ensures exists i | 0 <= i < |cameras| :: cameras[i] == d {
    }
  }
}

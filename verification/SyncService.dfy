/** The synchroniser's front: frames and archive completions come in under one lock, so each
    call is one step. */
module SyncService {
  import opened Wrappers
  import opened SyncModels
  import opened BufferSpec
  import opened FrameBuffer
  import opened SyncSpec
  import opened ArchiveSpec
  import opened Matcher

  const DEFAULT_WINDOW_MS := 50
  const DEFAULT_BUFFER_SIZE := 120

  class StreamSyncService {
    var enabled: bool
    var expectedCameras: seq<string>
    var windowMs: int
    var bufferManager: SyncFrameBufferManager
    var matcher: SyncMatcher?

    ghost predicate Valid()
      reads this, bufferManager`buffers, matcher, if matcher == null then {} else {matcher.bufferManager}
    {
      && bufferManager.Valid()
      && (enabled <==> matcher != null)
      && (matcher != null ==> matcher.bufferManager == bufferManager && matcher.Valid())
    }

    ghost function State(): SyncState
      requires matcher != null
      reads this, matcher, matcher.bufferManager, matcher.bufferManager.buffers.Values
    {
      matcher.State()
    }

    constructor ()
      ensures Valid() && !enabled && bufferManager.State() == EmptyBuffers(DEFAULT_BUFFER_SIZE)
    {
      enabled := false;
      expectedCameras := [];
      windowMs := DEFAULT_WINDOW_MS;
      bufferManager := new SyncFrameBufferManager(DEFAULT_BUFFER_SIZE);
      matcher := null;
    }

    /** Configuring starts afresh: empty buffers and, if enabled, a matcher in a new capture run. */
    method Configure(
        enabled: bool, expectedCameras: seq<string>, windowMs: int, bufferSize: nat, recentLimit: nat, runId: string)
      requires bufferSize >= 1 && Distinct(expectedCameras)
      modifies this
      ensures Valid() && this.enabled == enabled && fresh(bufferManager)
      ensures !enabled ==> bufferManager.State() == EmptyBuffers(bufferSize)
      ensures enabled ==>
        && fresh(matcher) && matcher.Settings() == Config(expectedCameras, windowMs, recentLimit)
        && State() == Initial(bufferSize, runId)
    {
      this.enabled := enabled;
      this.expectedCameras := expectedCameras;
      this.windowMs := windowMs;
      bufferManager := new SyncFrameBufferManager(bufferSize);
      matcher := null;
      if enabled {
        matcher := new SyncMatcher(bufferManager, expectedCameras, windowMs, recentLimit, runId);
      }
    }

    /** One arriving frame: a disabled service ignores it, else it takes one step. */
    method HandleFrame(frame: SyncFrame, nowMs: int, freshRunId: string) returns (result: Option<FrameSet>)
      requires Valid()
      modifies matcher, bufferManager, bufferManager.buffers.Values
      ensures Valid() && matcher == old(matcher)
      ensures matcher == null ==> result == None && bufferManager.State() == old(bufferManager.State())
      ensures matcher != null ==>
        Outcome(State(), result)
        == SyncSpec.HandleFrame(matcher.Settings(), true, old(State()), Input(frame, nowMs, freshRunId))
    {
      if !enabled {
        return None;
      }
      hide SyncFrameBufferManager.State, BufferState.AddFrame, BufferState.Accepts, SyncSpec.TryMatch;
      var stored := bufferManager.AddFrame(frame);
      if stored.None? {
        return None;
      }
      result := matcher.TryMatch(stored.value, Input(frame, nowMs, freshRunId), nowMs, freshRunId);
    }

    /** One completed archive: the stored frame and the newest recent set that holds it are updated. */
    method FinalizeFrameArchive(
        frame: SyncFrame, given: Option<FrameSet>, archive: Archive) returns (result: Option<FrameSet>)
      requires Valid()
      modifies matcher, bufferManager, bufferManager.buffers.Values
      ensures Valid() && matcher == old(matcher)
      ensures matcher == null ==>
        && result == given
        && bufferManager.State() == old(bufferManager.State()).FinalizeArchive(BuildBufferKey(frame), archive)
      ensures matcher != null ==>
        Completion(State(), result)
        == ArchiveSpec.FinalizeFrameArchive(matcher.Settings(), old(State()), frame, given, archive)
    {
      assert bufferManager.State().index == bufferManager.framesByKey;
      hide SyncFrameBufferManager.State, BufferState.FinalizeArchive, BuildBufferKey, ReplaceEverywhere, FindMember;
      var key := BuildBufferKey(frame);
      var stored := bufferManager.FinalizeArchive(key, archive);
      if matcher == null {
        return given;
      }
      if stored.None? {
        var member := FindMember(matcher.expectedCameras, matcher.recentFrameSets + AsSeq(given), key);
        if member.None? {
          return given;
        }
        stored := Some(member.value.(archive := archive));
      }
      result := ReplaceMember(stored.value, given);
    }

    /** The newest recent set that holds the frame is updated, else the set the caller holds. */
    method ReplaceMember(stored: SyncFrame, given: Option<FrameSet>) returns (result: Option<FrameSet>)
      requires Valid() && matcher != null
      modifies matcher
      ensures Valid()
      ensures Completion(State(), result) == ReplaceEverywhere(matcher.Settings(), old(State()), given, stored)
    {
      hide SyncFrameBufferManager.State, ReplaceFrameMember, ReplaceRecent, NewestHolding;
      result := matcher.ReplaceRecentFrameMember(stored);
      if result.None? && given.Some? {
        var replaced := matcher.ReplaceFrameMember(given.value, stored);
        result := Some(replaced);
      }
    }

    method Clear(runId: string)
      modifies this
      ensures Valid() && !enabled && fresh(bufferManager)
    {
      Configure(false, [], DEFAULT_WINDOW_MS, DEFAULT_BUFFER_SIZE, 20, runId);
    }
  }
}

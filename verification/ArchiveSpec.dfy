/** What an archive completion does: the stored frame is replaced in the buffers, and in the
    newest recent frame set that holds it. */
module ArchiveSpec {
  import opened Wrappers
  import opened SyncModels
  import opened SyncSpec

  /** Some member of the set is stored under the key. */
  predicate HoldsKey(emitted: FrameSet, key: string)
  {
    exists d :: d in emitted.frames && emitted.frames[d].bufferKey == key
  }

  /** The first member stored under the same key gives way to the frame. */
  function WithMember(cameras: seq<string>, frames: Selection, frame: SyncFrame): Selection
  {
    if cameras == [] then frames
    else if cameras[0] in frames && frames[cameras[0]].bufferKey == frame.bufferKey then frames[cameras[0] := frame]
    else WithMember(cameras[1..], frames, frame)
  }

  /** The set with other members; its archive state and errors follow from them. */
  function WithFrames(emitted: FrameSet, frames: Selection): FrameSet
  {
    emitted.(frames := frames, archiveState := SetArchiveState(frames), archiveErrors := SetArchiveErrors(frames))
  }

  function ReplaceFrameMember(config: Config, emitted: FrameSet, frame: SyncFrame): FrameSet
  {
    WithFrames(emitted, WithMember(config.cameras, emitted.frames, frame))
  }

  predicate SameId(a: FrameSet, b: FrameSet)
  {
    a.captureRunId == b.captureRunId && a.frameSetId == b.frameSetId
  }

  function ReplaceRecent(recent: seq<FrameSet>, updated: FrameSet): (r: seq<FrameSet>)
    ensures |r| == |recent|
  {
    seq(|recent|, i requires 0 <= i < |recent| => if SameId(recent[i], updated) then updated else recent[i])
  }

  /** How many recent sets there are up to and including the newest that holds the key; zero if none does. */
  function NewestHolding(recent: seq<FrameSet>, key: string): (n: nat)
    ensures n <= |recent|
    ensures n > 0 ==> HoldsKey(recent[n - 1], key)
  {
    if recent == [] then 0
    else if HoldsKey(recent[|recent| - 1], key) then |recent|
    else NewestHolding(recent[..|recent| - 1], key)
  }

  function FindInSet(cameras: seq<string>, frames: Selection, key: string): Option<SyncFrame>
  {
    if cameras == [] then None
    else if cameras[0] in frames && frames[cameras[0]].bufferKey == key then Some(frames[cameras[0]])
    else FindInSet(cameras[1..], frames, key)
  }

  /** The first member stored under the key, in the order of the candidates. */
  function FindMember(cameras: seq<string>, candidates: seq<FrameSet>, key: string): Option<SyncFrame>
  {
    if candidates == [] then None
    else
      var found := FindInSet(cameras, candidates[0].frames, key);
      if found.Some? then found else FindMember(cameras, candidates[1..], key)
  }

  datatype Completion = Completion(state: SyncState, result: Option<FrameSet>)

  /** The set that a completion updates: the newest recent one that holds the key, else the caller's. */
  function Target(recent: seq<FrameSet>, given: Option<FrameSet>, key: string): Option<FrameSet>
  {
    var n := NewestHolding(recent, key);
    if n > 0 then Some(recent[n - 1]) else given
  }

  function RecentAfter(recent: seq<FrameSet>, updated: Option<FrameSet>): seq<FrameSet>
  {
    if updated.Some? then ReplaceRecent(recent, updated.value) else recent
  }

  function ReplaceTarget(
      config: Config, recent: seq<FrameSet>, given: Option<FrameSet>, stored: SyncFrame): Option<FrameSet>
  {
    var target := Target(recent, given, stored.bufferKey);
    if target.Some? then Some(ReplaceFrameMember(config, target.value, stored)) else None
  }

  function ReplaceEverywhere(config: Config, state: SyncState, given: Option<FrameSet>, stored: SyncFrame): Completion
  {
    var updated := ReplaceTarget(config, state.matcher.recent, given, stored);
    Completion(state.(matcher := state.matcher.(recent := RecentAfter(state.matcher.recent, updated))), updated)
  }

  /** The frame whose archive completes: from the index, else from a recent set or the caller's. */
  function CompletedFrame(config: Config, state: SyncState, key: string, given: Option<FrameSet>): Option<SyncFrame>
  {
    if key in state.buffers.index then Some(state.buffers.index[key])
    else FindMember(config.cameras, state.matcher.recent + AsSeq(given), key)
  }

  function FinalizeFrameArchive(
    config: Config, state: SyncState, frame: SyncFrame, given: Option<FrameSet>, archive: Archive): Completion
  {
    var key := BuildBufferKey(frame);
    var finalized := state.(buffers := state.buffers.FinalizeArchive(key, archive));
    var member := CompletedFrame(config, state, key, given);
    if member.None? then Completion(finalized, given)
    else ReplaceEverywhere(config, finalized, given, member.value.(archive := archive))
  }

  /** What reaches the synchroniser: frames, and completions of their archiving. */
  datatype Event =
    | Arrived(input: Input)
    | Completed(frame: SyncFrame, given: Option<FrameSet>, archive: Archive)

  ghost function Apply(config: Config, state: SyncState, event: Event): SyncState
  {
    match event
    case Arrived(input) => HandleFrame(config, true, state, input).state
    case Completed(frame, given, archive) => FinalizeFrameArchive(config, state, frame, given, archive).state
  }

  ghost function Play(config: Config, state: SyncState, events: seq<Event>): SyncState
    decreases |events|
  {
    if events == [] then state else Play(config, Apply(config, state, events[0]), events[1..])
  }
}

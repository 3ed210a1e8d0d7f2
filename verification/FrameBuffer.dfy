/** The per-camera buffers and their manager, in the form the collector runs them:
    objects whose queues and index change in place. */
module FrameBuffer {
  import opened Wrappers
  import opened SyncModels
  import opened BufferSpec
  import FrameOrder

  class CameraSyncBuffer {
    const maxFrames: nat
    var frames: seq<SyncFrame>
    var receivedCount: nat
    var lastSequence: Option<int>
    var lastTimestampMs: Option<int>
    var sequenceGapCount: int
    var sourceIdentity: Option<SourceIdentity>
    var retainedKeys: seq<string>

    function State(): CameraState
      reads this
    {
      CameraState(frames, receivedCount, lastSequence, lastTimestampMs, sequenceGapCount, sourceIdentity, retainedKeys)
    }

    constructor (maxFrames: nat)
      ensures this.maxFrames == maxFrames && State() == NEW_CAMERA
    {
      this.maxFrames := maxFrames;
      frames := [];
      receivedCount := 0;
      lastSequence := None;
      lastTimestampMs := None;
      sequenceGapCount := 0;
      sourceIdentity := None;
      retainedKeys := [];
    }

    predicate IsOutOfOrder(frame: SyncFrame)
      reads this
      ensures IsOutOfOrder(frame) <==> State().IsOutOfOrder(frame)
    {
      && frame.mode == V2
      && Some(frame.source) == sourceIdentity
      && (|| (frame.sequence.Some? && lastSequence.Some? && frame.sequence.value <= lastSequence.value)
          || (lastTimestampMs.Some? && frame.timestampMs < lastTimestampMs.value))
    }

    method Append(frame: SyncFrame)
      modifies this
      ensures State() == old(State()).Append(frame, maxFrames)
    {
      var identity := Some(frame.source);
      if identity != sourceIdentity {
        frames := [];
        lastSequence := None;
        lastTimestampMs := None;
        sourceIdentity := identity;
      }
      assert State() == old(State()).ForSource(frame.source);
      if lastSequence.Some? && frame.sequence.Some? && frame.sequence.value > lastSequence.value + 1 {
        sequenceGapCount := sequenceGapCount + (frame.sequence.value - lastSequence.value - 1);
      }
      frames := Bounded(frames + [frame], maxFrames);
      receivedCount := receivedCount + 1;
      if frame.sequence.Some? {
        lastSequence := frame.sequence;
      }
      lastTimestampMs := Some(frame.timestampMs);
    }

    /** The buffered frames, each as often as it is held, in (timestamp, key) order. */
    function AvailableFrames(): (r: seq<SyncFrame>)
      reads this`frames
      ensures FrameOrder.Sorted(r) && multiset(r) == multiset(frames)
    {
      FrameOrder.SortPermutes(frames);
      FrameOrder.SortFrames(frames)
    }

    method DropFramesOlderThan(timestampMs: int) returns (droppedCount: nat)
      modifies this
      ensures State() == old(State()).KeepFrom(timestampMs)
      ensures droppedCount == |old(frames)| - |frames|
    {
      var buffered, kept := frames, [];
      droppedCount := 0;
      for i := 0 to |buffered|
        modifies {}
        invariant kept == NotBefore(buffered[..i], timestampMs)
        invariant droppedCount == i - |kept|
      {
        assert buffered[..i + 1] == buffered[..i] + [buffered[i]];
        NotBeforeAppend(buffered[..i], [buffered[i]], timestampMs);
        if buffered[i].timestampMs < timestampMs {
          droppedCount := droppedCount + 1;
        } else {
          kept := kept + [buffered[i]];
        }
      }
      assert buffered[..|buffered|] == buffered;
      frames := kept;
    }

    method ConsumeThrough(chosen: SyncFrame) returns (superseded: nat)
      modifies this
      ensures State() == old(State()).KeepFrom(chosen.timestampMs + 1)
      ensures superseded == SupersededCount(old(frames), chosen)
    {
      var buffered, kept := frames, [];
      superseded := 0;
      for i := 0 to |buffered|
        modifies {}
        invariant kept == NotBefore(buffered[..i], chosen.timestampMs + 1)
        invariant superseded == SupersededCount(buffered[..i], chosen)
      {
        assert buffered[..i + 1] == buffered[..i] + [buffered[i]];
        NotBeforeAppend(buffered[..i], [buffered[i]], chosen.timestampMs + 1);
        SupersededAppend(buffered[..i], [buffered[i]], chosen);
        if buffered[i].timestampMs <= chosen.timestampMs {
          superseded := superseded + (if buffered[i].bufferKey != chosen.bufferKey then 1 else 0);
        } else {
          kept := kept + [buffered[i]];
        }
      }
      assert buffered[..|buffered|] == buffered;
      frames := kept;
    }
  }

  class SyncFrameBufferManager {
    const bufferSize: nat
    var buffers: map<string, CameraSyncBuffer>
    var framesByKey: map<string, SyncFrame>
    var receivedCount: nat
    var duplicateFrameCount: nat
    var outOfOrderFrameCount: nat
    var evictedFrameCount: nat

    ghost predicate Valid()
      reads this`buffers
    {
      && bufferSize >= 1
      && (forall d | d in buffers :: buffers[d].maxFrames == bufferSize)
      && (forall d, e | d in buffers && e in buffers && d != e :: buffers[d] != buffers[e])
    }

    ghost function Cameras(): map<string, CameraState>
      reads this`buffers, buffers.Values
    {
      map d | d in buffers :: buffers[d].State()
    }

    ghost function State(): BufferState
      reads this, buffers.Values
    {
      BufferState(
        bufferSize, Cameras(), framesByKey,
        receivedCount, duplicateFrameCount, outOfOrderFrameCount, evictedFrameCount)
    }

    /** Changing one camera's buffer changes one entry of the abstract map. */
    twostate lemma OnlyChanged(deviceId: string)
      requires old(Valid()) && buffers == old(buffers) && deviceId in buffers
      requires forall d | d in buffers && d != deviceId :: unchanged(buffers[d])
      ensures Cameras() == old(Cameras())[deviceId := buffers[deviceId].State()]
    {
    }

    constructor (bufferSize: nat)
      requires bufferSize >= 1
      ensures Valid() && this.bufferSize == bufferSize && State() == EmptyBuffers(bufferSize)
    {
      this.bufferSize := bufferSize;
      buffers := map[];
      framesByKey := map[];
      receivedCount := 0;
      duplicateFrameCount := 0;
      outOfOrderFrameCount := 0;
      evictedFrameCount := 0;
    }

    /** The camera's buffer, created on first use. */
    method BufferFor(deviceId: string) returns (buffer: CameraSyncBuffer)
      requires Valid()
      modifies this`buffers
      ensures Valid() && buffers == old(buffers)[deviceId := buffer]
      ensures if deviceId in old(buffers) then buffer == old(buffers)[deviceId] else fresh(buffer)
      ensures State() == old(State()).Touch(deviceId)
    {
      if deviceId !in buffers {
        var created := new CameraSyncBuffer(bufferSize);
        buffers := buffers[deviceId := created];
      }
      buffer := buffers[deviceId];
      assert State().cameras == old(State()).Touch(deviceId).cameras;
    }

    /** The key joins its camera's retained keys; keys pushed out leave the index. */
    method Retain(buffer: CameraSyncBuffer, key: string)
      modifies this`framesByKey, buffer`retainedKeys
      ensures (buffer.retainedKeys, framesByKey) == Trim(old(buffer.retainedKeys) + [key], old(framesByKey), bufferSize)
    {
      buffer.retainedKeys := buffer.retainedKeys + [key];
      while |buffer.retainedKeys| > bufferSize
        invariant Trim(buffer.retainedKeys, framesByKey, bufferSize)
                  == Trim(old(buffer.retainedKeys) + [key], old(framesByKey), bufferSize)
      {
        framesByKey := framesByKey - {buffer.retainedKeys[0]};
        buffer.retainedKeys := buffer.retainedKeys[1..];
      }
    }

    method Store(stored: SyncFrame)
      requires Valid() && stored.deviceId in buffers
      modifies this`framesByKey, buffers[stored.deviceId]
      ensures Valid()
      ensures State() == old(State()).Store(stored)
    {
      var buffer := buffers[stored.deviceId];
      ghost var before := State();
      ghost var camera := before.Camera(stored.deviceId);
      assert camera == buffer.State();
      buffer.Append(stored);
      framesByKey := framesByKey[stored.bufferKey := stored];
      Retain(buffer, stored.bufferKey);
      OnlyChanged(stored.deviceId);
    }

    method Accept(stored: SyncFrame)
      requires Valid() && stored.deviceId in buffers
      modifies this`framesByKey, this`receivedCount, this`evictedFrameCount, buffers[stored.deviceId]
      ensures Valid() && State() == old(State()).Accept(stored)
    {
      var full := |buffers[stored.deviceId].frames| == bufferSize;
      Store(stored);
      Count(full);
    }

    method Count(full: bool)
      modifies this`receivedCount, this`evictedFrameCount
      ensures State() == old(State()).(
        receivedCount := old(State()).receivedCount + 1,
        evictedCount := old(State()).evictedCount + (if full then 1 else 0))
    {
      if full {
        evictedFrameCount := evictedFrameCount + 1;
      }
      receivedCount := receivedCount + 1;
    }

    method Admit(stored: SyncFrame) returns (admitted: bool)
      requires Valid() && stored.deviceId in buffers
      modifies this`framesByKey, this`receivedCount, this`evictedFrameCount, this`outOfOrderFrameCount
      modifies buffers[stored.deviceId]
      ensures Valid() && State() == old(State()).Admit(stored)
      ensures admitted == !old(State()).Camera(stored.deviceId).IsOutOfOrder(stored)
    {
      assert buffers[stored.deviceId].State() == State().Camera(stored.deviceId);
      if buffers[stored.deviceId].IsOutOfOrder(stored) {
        outOfOrderFrameCount := outOfOrderFrameCount + 1;
        return false;
      }
      Accept(stored);
      return true;
    }

    method AddFrame(frame: SyncFrame) returns (result: Option<SyncFrame>)
      requires Valid()
      modifies this, buffers.Values
      ensures Valid()
      ensures forall d | d in buffers :: (d in old(buffers) && buffers[d] == old(buffers)[d]) || fresh(buffers[d])
      ensures State() == old(State()).AddFrame(Stored(frame))
      ensures result == if old(State()).Accepts(Stored(frame)) then Some(Stored(frame)) else None
    {
      var stored := Stored(frame);
      if stored.bufferKey in framesByKey {
        duplicateFrameCount := duplicateFrameCount + 1;
        return None;
      }
      var buffer := BufferFor(stored.deviceId);
      assert forall d | d in buffers :: (d in old(buffers) && buffers[d] == old(buffers)[d]) || fresh(buffers[d]);
      assert State().Camera(stored.deviceId) == old(State()).Camera(stored.deviceId);
      var admitted := Admit(stored);
      return if admitted then Some(stored) else None;
    }

    function AvailableFrames(deviceId: string): (r: seq<SyncFrame>)
      reads this, buffers.Values
      ensures r == FrameOrder.SortFrames(State().Frames(deviceId))
    {
      if deviceId in buffers then buffers[deviceId].AvailableFrames() else []
    }

    /** The latest timestamp of each given camera that has one. */
    method LatestTimestamps(deviceIds: seq<string>) returns (latest: map<string, int>)
      requires Valid()
      ensures forall d :: d in latest <==> d in deviceIds && State().Camera(d).lastTimestampMs.Some?
      ensures forall d | d in latest :: latest[d] == State().Camera(d).lastTimestampMs.value
    {
      latest := map[];
      for i := 0 to |deviceIds|
        invariant forall d :: d in latest <==> d in deviceIds[..i] && State().Camera(d).lastTimestampMs.Some?
        invariant forall d | d in latest :: latest[d] == State().Camera(d).lastTimestampMs.value
      {
        var d := deviceIds[i];
        if d in buffers && buffers[d].lastTimestampMs.Some? {
          latest := latest[d := buffers[d].lastTimestampMs.value];
        }
      }
    }

    method DropFrom(deviceId: string, timestampMs: int) returns (droppedCount: int)
      requires Valid()
      modifies buffers.Values
      ensures Valid()
      ensures State() == old(State()).KeepFrom([deviceId], timestampMs)
      ensures droppedCount == |old(State()).Frames(deviceId)| - |State().Frames(deviceId)|
    {
      droppedCount := 0;
      if deviceId in buffers {
        droppedCount := buffers[deviceId].DropFramesOlderThan(timestampMs);
      }
      assert State().cameras == old(State()).KeepFrom([deviceId], timestampMs).cameras;
    }

    method DropFramesOlderThan(deviceIds: seq<string>, timestampMs: int) returns (droppedCount: int)
      requires Valid() && Distinct(deviceIds)
      modifies buffers.Values
      ensures Valid()
      ensures State() == old(State()).KeepFrom(deviceIds, timestampMs)
      ensures droppedCount == old(State()).FrameTotal(deviceIds) - State().FrameTotal(deviceIds)
    {
      droppedCount := 0;
      ghost var before := State();
      before.KeepFromNone(timestampMs);
      for i := 0 to |deviceIds|
        invariant Valid()
        invariant State() == before.KeepFrom(deviceIds[..i], timestampMs)
        invariant droppedCount == before.FrameTotal(deviceIds[..i]) - State().FrameTotal(deviceIds[..i])
      {
        ghost var reached := State();
        var dropped := DropFrom(deviceIds[i], timestampMs);
        droppedCount := droppedCount + dropped;
        before.KeepFromNext(deviceIds, i, timestampMs);
      }
      assert deviceIds[..|deviceIds|] == deviceIds;
    }

    method ConsumeFrom(deviceId: string, chosen: SyncFrame) returns (superseded: nat)
      requires Valid() && deviceId in buffers
      modifies buffers.Values
      ensures Valid()
      ensures State() == old(State()).ConsumeThrough(map[deviceId := chosen])
      ensures superseded == SupersededCount(old(State()).Frames(deviceId), chosen)
    {
      superseded := buffers[deviceId].ConsumeThrough(chosen);
      assert State().cameras == old(State()).ConsumeThrough(map[deviceId := chosen]).cameras;
    }

    /** `deviceIds` is the order in which the selection was built. */
    method ConsumeThrough(deviceIds: seq<string>, selected: Selection) returns (superseded: nat)
      requires Valid() && Distinct(deviceIds)
      requires forall d :: d in deviceIds <==> d in selected
      requires forall d :: d in selected ==> d in buffers
      modifies buffers.Values
      ensures Valid()
      ensures State() == old(State()).ConsumeThrough(selected)
      ensures superseded == old(State()).SupersededTotal(deviceIds, selected)
    {
      superseded := 0;
      ghost var before := State();
      before.ConsumeNone();
      for i := 0 to |deviceIds|
        invariant Valid()
        invariant State() == before.ConsumeThrough(Chosen(deviceIds[..i], selected))
        invariant superseded == before.SupersededTotal(deviceIds[..i], selected)
      {
        var count := ConsumeFrom(deviceIds[i], selected[deviceIds[i]]);
        superseded := superseded + count;
        before.ConsumeNext(deviceIds, i, selected);
      }
      assert deviceIds[..|deviceIds|] == deviceIds;
      assert Chosen(deviceIds, selected) == selected;
    }

    method FinalizeArchive(frameKey: string, archive: Archive) returns (result: Option<SyncFrame>)
      requires Valid()
      modifies this, buffers.Values
      ensures Valid() && buffers == old(buffers)
      ensures State() == old(State()).FinalizeArchive(frameKey, archive)
      ensures result
              == if frameKey in old(framesByKey) then Some(old(framesByKey)[frameKey].(archive := archive)) else None
    {
      if frameKey !in framesByKey {
        return None;
      }
      var updated := framesByKey[frameKey].(archive := archive);
      framesByKey := framesByKey[frameKey := updated];
      if updated.deviceId in buffers {
        var buffer := buffers[updated.deviceId];
        buffer.frames := Replaced(buffer.frames, updated);
      }
      return Some(updated);
    }
  }
}

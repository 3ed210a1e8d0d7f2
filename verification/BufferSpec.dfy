/** What the frame buffers hold, as values: one bounded buffer per camera, and one
    index of recently stored frames by key. */
module BufferSpec {
  import opened Wrappers
  import opened SyncModels

  /** A bounded queue keeps its newest `limit` elements. */
  function Bounded<T>(s: seq<T>, limit: nat): (r: seq<T>)
    ensures |r| <= limit && |r| <= |s| && r == s[|s| - |r|..]
  {
    if |s| > limit then s[|s| - limit..] else s
  }

  /** The frames that are not older than `cutoffMs`, in order. */
  function NotBefore(frames: seq<SyncFrame>, cutoffMs: int): (r: seq<SyncFrame>)
    ensures |r| <= |frames|
  {
    if frames == [] then []
    else if frames[0].timestampMs >= cutoffMs then [frames[0]] + NotBefore(frames[1..], cutoffMs)
    else NotBefore(frames[1..], cutoffMs)
  }

  lemma {:induction false} NotBeforeKeeps(frames: seq<SyncFrame>, cutoffMs: int)
    ensures forall f :: f in NotBefore(frames, cutoffMs) <==> f in frames && f.timestampMs >= cutoffMs
  {
    if frames != [] {
      NotBeforeKeeps(frames[1..], cutoffMs);
      assert frames == [frames[0]] + frames[1..];
    }
  }

  lemma {:induction false} NotBeforeAppend(a: seq<SyncFrame>, b: seq<SyncFrame>, cutoffMs: int)
    ensures NotBefore(a + b, cutoffMs) == NotBefore(a, cutoffMs) + NotBefore(b, cutoffMs)
  {
    if a == [] {
      assert a + b == b;
    } else {
      assert (a + b)[0] == a[0] && (a + b)[1..] == a[1..] + b;
      NotBeforeAppend(a[1..], b, cutoffMs);
    }
  }

  lemma {:induction false} NotBeforeTwice(frames: seq<SyncFrame>, first: int, second: int)
    ensures NotBefore(NotBefore(frames, first), second)
            == NotBefore(frames, if first < second then second else first)
  {
    if frames != [] {
      NotBeforeTwice(frames[1..], first, second);
      if frames[0].timestampMs >= first {
        var rest := NotBefore(frames[1..], first);
        assert NotBefore(frames, first)[0] == frames[0] && NotBefore(frames, first)[1..] == rest;
      }
    }
  }

  lemma {:induction false} NotBeforeKeepsAll(frames: seq<SyncFrame>, cutoffMs: int)
    requires forall f :: f in frames ==> f.timestampMs >= cutoffMs
    ensures NotBefore(frames, cutoffMs) == frames
  {
    if frames != [] {
      NotBeforeKeepsAll(frames[1..], cutoffMs);
    }
  }

  /** Keys beyond the limit leave the queue, oldest first, and the index with it. */
  function Trim(keys: seq<string>, index: map<string, SyncFrame>, limit: nat): (seq<string>, map<string, SyncFrame>)
  {
    if |keys| <= limit then (keys, index)
    else Trim(keys[1..], index - {keys[0]}, limit)
  }

  /** A queue in arrival order whose timestamps never go back. */
  predicate Ascending(frames: seq<SyncFrame>)
  {
    forall i, j | 0 <= i < j < |frames| :: frames[i].timestampMs <= frames[j].timestampMs
  }

  /** In an ascending queue the frames kept are a suffix. */
  lemma {:induction false} NotBeforeIsSuffix(frames: seq<SyncFrame>, cutoffMs: int)
    requires Ascending(frames)
    ensures var kept := NotBefore(frames, cutoffMs);
            kept == frames[|frames| - |kept|..] && Ascending(kept)
  {
    if frames != [] {
      NotBeforeIsSuffix(frames[1..], cutoffMs);
      if frames[0].timestampMs >= cutoffMs {
        NotBeforeKeepsAll(frames, cutoffMs);
      }
    }
  }

  /** The frames that an emitted member retires without being that member. */
  function SupersededCount(frames: seq<SyncFrame>, chosen: SyncFrame): nat
  {
    if frames == [] then 0
    else
      (if frames[0].timestampMs <= chosen.timestampMs && frames[0].bufferKey != chosen.bufferKey then 1 else 0)
      + SupersededCount(frames[1..], chosen)
  }

  lemma {:induction false} SupersededAppend(a: seq<SyncFrame>, b: seq<SyncFrame>, chosen: SyncFrame)
    ensures SupersededCount(a + b, chosen) == SupersededCount(a, chosen) + SupersededCount(b, chosen)
  {
    if a == [] {
      assert a + b == b;
    } else {
      assert (a + b)[0] == a[0] && (a + b)[1..] == a[1..] + b;
      SupersededAppend(a[1..], b, chosen);
    }
  }

  datatype CameraState = CameraState(
    frames: seq<SyncFrame>,
    receivedCount: nat,
    lastSequence: Option<int>,
    lastTimestampMs: Option<int>,
    sequenceGapCount: int,
    sourceIdentity: Option<SourceIdentity>,
    retainedKeys: seq<string>)
  {
    /** A V2 frame is late when, for an unchanged source, its sequence does not advance
        or its timestamp goes back. */
    predicate IsOutOfOrder(frame: SyncFrame)
    {
      && frame.mode == V2
      && Some(frame.source) == sourceIdentity
      && (|| (frame.sequence.Some? && lastSequence.Some? && frame.sequence.value <= lastSequence.value)
          || (lastTimestampMs.Some? && frame.timestampMs < lastTimestampMs.value))
    }

    /** A change of source starts the buffer afresh. */
    function ForSource(source: SourceIdentity): CameraState
    {
      if Some(source) != sourceIdentity then
        this.(frames := [], lastSequence := None, lastTimestampMs := None, sourceIdentity := Some(source))
      else
        this
    }

    function GapBefore(frame: SyncFrame): int
    {
      if lastSequence.Some? && frame.sequence.Some? && frame.sequence.value > lastSequence.value + 1
      then frame.sequence.value - lastSequence.value - 1
      else 0
    }

    function Append(frame: SyncFrame, maxFrames: nat): CameraState
    {
      var started := ForSource(frame.source);
      started.(
        frames := Bounded(started.frames + [frame], maxFrames),
        receivedCount := receivedCount + 1,
        sequenceGapCount := sequenceGapCount + started.GapBefore(frame),
        lastSequence := if frame.sequence.Some? then frame.sequence else started.lastSequence,
        lastTimestampMs := Some(frame.timestampMs))
    }

    function KeepFrom(cutoffMs: int): CameraState
    {
      this.(frames := NotBefore(frames, cutoffMs))
    }
  }

  const NEW_CAMERA := CameraState([], 0, None, None, 0, None, [])

  datatype BufferState = BufferState(
    size: nat,
    cameras: map<string, CameraState>,
    index: map<string, SyncFrame>,
    receivedCount: nat,
    duplicateCount: nat,
    outOfOrderCount: nat,
    evictedCount: nat)
  {
    function Camera(deviceId: string): CameraState
    {
      if deviceId in cameras then cameras[deviceId] else NEW_CAMERA
    }

    function Frames(deviceId: string): seq<SyncFrame>
    {
      Camera(deviceId).frames
    }

    /** Whether `AddFrame` stores the frame. */
    predicate Accepts(frame: SyncFrame)
    {
      frame.bufferKey !in index && !Camera(frame.deviceId).IsOutOfOrder(frame)
    }

    /** The frame joins its camera's buffer, the index and the retained keys; a key
        pushed out of the retained keys leaves the index. */
    function Store(frame: SyncFrame): BufferState
    {
      var camera := Camera(frame.deviceId);
      var (keys, indexed) := Trim(camera.retainedKeys + [frame.bufferKey], index[frame.bufferKey := frame], size);
      this.(
        cameras := cameras[frame.deviceId := camera.Append(frame, size).(retainedKeys := keys)],
        index := indexed)
    }

    /** A frame is turned away when its key is indexed or when it is late. */
    function AddFrame(frame: SyncFrame): BufferState
    {
      if frame.bufferKey in index then
        this.(duplicateCount := duplicateCount + 1)
      else
        Touch(frame.deviceId).Admit(frame)
    }

    function Admit(frame: SyncFrame): BufferState
    {
      if Camera(frame.deviceId).IsOutOfOrder(frame) then this.(outOfOrderCount := outOfOrderCount + 1)
      else Accept(frame)
    }

    function Accept(frame: SyncFrame): BufferState
    {
      Store(frame).(
        receivedCount := receivedCount + 1,
        evictedCount := evictedCount + (if |Frames(frame.deviceId)| == size then 1 else 0))
    }

    function Touch(deviceId: string): BufferState
    {
      this.(cameras := cameras[deviceId := Camera(deviceId)])
    }

    /** Frames older than the cutoff leave the buffers of the given cameras. */
    function KeepFrom(deviceIds: seq<string>, cutoffMs: int): BufferState
    {
      this.(cameras := map d | d in cameras ::
        if d in deviceIds then cameras[d].KeepFrom(cutoffMs) else cameras[d])
    }

    function FrameTotal(deviceIds: seq<string>): nat
    {
      if deviceIds == [] then 0 else |Frames(deviceIds[0])| + FrameTotal(deviceIds[1..])
    }

    function SupersededTotal(deviceIds: seq<string>, selected: Selection): nat
      requires forall d :: d in deviceIds ==> d in selected
    {
      if deviceIds == [] then 0
      else
        SupersededCount(Frames(deviceIds[0]), selected[deviceIds[0]])
        + SupersededTotal(deviceIds[1..], selected)
    }

    /** Every frame not later than the chosen one leaves its camera's buffer. */
    function ConsumeThrough(selected: Selection): BufferState
    {
      this.(cameras := map d | d in cameras ::
        if d in selected then cameras[d].KeepFrom(selected[d].timestampMs + 1) else cameras[d])
    }

    lemma KeepFromNone(cutoffMs: int)
      ensures KeepFrom([], cutoffMs) == this
    {
      assert KeepFrom([], cutoffMs).cameras == cameras;
    }

    /** Dropping camera by camera adds up to dropping from all of them. */
    lemma KeepFromNext(deviceIds: seq<string>, i: nat, cutoffMs: int)
      requires i < |deviceIds| && Distinct(deviceIds)
      ensures var reached := KeepFrom(deviceIds[..i], cutoffMs);
              var next := KeepFrom(deviceIds[..i + 1], cutoffMs);
              && reached.KeepFrom([deviceIds[i]], cutoffMs) == next
              && FrameTotal(deviceIds[..i + 1]) == FrameTotal(deviceIds[..i]) + |Frames(deviceIds[i])|
              && next.FrameTotal(deviceIds[..i + 1])
                 == reached.FrameTotal(deviceIds[..i]) + |next.Frames(deviceIds[i])|
              && reached.Frames(deviceIds[i]) == Frames(deviceIds[i])
    {
      var reached := KeepFrom(deviceIds[..i], cutoffMs);
      var next := KeepFrom(deviceIds[..i + 1], cutoffMs);
      assert deviceIds[..i + 1] == deviceIds[..i] + [deviceIds[i]];
      assert reached.KeepFrom([deviceIds[i]], cutoffMs).cameras == next.cameras;
      FrameTotalAppend(this, deviceIds[..i], deviceIds[i]);
      FrameTotalAppend(next, deviceIds[..i], deviceIds[i]);
      FrameTotalSame(reached, next, deviceIds[..i]);
    }

    lemma ConsumeNone()
      ensures ConsumeThrough(map[]) == this
    {
      assert ConsumeThrough(map[]).cameras == cameras;
    }

    lemma ConsumeNext(deviceIds: seq<string>, i: nat, selected: Selection)
      requires i < |deviceIds| && Distinct(deviceIds)
      requires forall d :: d in deviceIds <==> d in selected
      ensures var reached := ConsumeThrough(Chosen(deviceIds[..i], selected));
              var d := deviceIds[i];
              && reached.ConsumeThrough(map[d := selected[d]]) == ConsumeThrough(Chosen(deviceIds[..i + 1], selected))
              && SupersededTotal(deviceIds[..i + 1], selected)
                 == SupersededTotal(deviceIds[..i], selected) + SupersededCount(reached.Frames(d), selected[d])
    {
      var reached := ConsumeThrough(Chosen(deviceIds[..i], selected));
      var d := deviceIds[i];
      assert deviceIds[..i + 1] == deviceIds[..i] + [d];
      var next := ConsumeThrough(Chosen(deviceIds[..i + 1], selected));
      var stepped := reached.ConsumeThrough(map[d := selected[d]]);
      assert d !in deviceIds[..i];
      forall e | e in cameras ensures stepped.cameras[e] == next.cameras[e] {
        assert e in deviceIds[..i + 1] <==> e in deviceIds[..i] || e == d;
        if e == d {
          assert reached.cameras[e] == cameras[e];
        } else {
          assert stepped.cameras[e] == reached.cameras[e];
        }
      }
      assert stepped.cameras == next.cameras;
      SupersededTotalAppend(this, deviceIds[..i], d, selected);
    }

    /** The completed frame replaces the stored one in the index and in its buffer. */
    function FinalizeArchive(key: string, archive: Archive): BufferState
    {
      if key !in index then this
      else
        var updated := index[key].(archive := archive);
        this.(
          index := index[key := updated],
          cameras := map d | d in cameras ::
            if d == updated.deviceId then cameras[d].(frames := Replaced(cameras[d].frames, updated))
            else cameras[d])
    }
  }

  predicate Distinct<T(==)>(s: seq<T>)
  {
    forall i, j | 0 <= i < j < |s| :: s[i] != s[j]
  }

  function Replaced(frames: seq<SyncFrame>, updated: SyncFrame): (r: seq<SyncFrame>)
    ensures |r| == |frames|
    ensures forall i | 0 <= i < |frames| ::
      r[i] == if frames[i].bufferKey == updated.bufferKey then updated else frames[i]
  {
    seq(|frames|, i requires 0 <= i < |frames| =>
      if frames[i].bufferKey == updated.bufferKey then updated else frames[i])
  }

  function EmptyBuffers(size: nat): BufferState
  {
    BufferState(size, map[], map[], 0, 0, 0, 0)
  }

  /** The part of a selection made for the given cameras. */
  function Chosen(deviceIds: seq<string>, selected: Selection): Selection
    requires forall d :: d in deviceIds ==> d in selected
  {
    map d | d in deviceIds :: selected[d]
  }

  lemma {:induction false} FrameTotalAppend(state: BufferState, deviceIds: seq<string>, d: string)
    ensures state.FrameTotal(deviceIds + [d]) == state.FrameTotal(deviceIds) + |state.Frames(d)|
  {
    if deviceIds == [] {
      assert [d][1..] == [];
    } else {
      assert (deviceIds + [d])[1..] == deviceIds[1..] + [d];
      FrameTotalAppend(state, deviceIds[1..], d);
    }
  }

  lemma {:induction false} FrameTotalSame(a: BufferState, b: BufferState, deviceIds: seq<string>)
    requires forall d | d in deviceIds :: |a.Frames(d)| == |b.Frames(d)|
    ensures a.FrameTotal(deviceIds) == b.FrameTotal(deviceIds)
  {
    if deviceIds != [] {
      FrameTotalSame(a, b, deviceIds[1..]);
    }
  }

  lemma {:induction false} SupersededTotalAppend(
      state: BufferState, deviceIds: seq<string>, d: string, selected: Selection)
    requires d in selected && forall e :: e in deviceIds ==> e in selected
    ensures state.SupersededTotal(deviceIds + [d], selected)
            == state.SupersededTotal(deviceIds, selected) + SupersededCount(state.Frames(d), selected[d])
  {
    if deviceIds == [] {
      assert [d][1..] == [];
    } else {
      assert (deviceIds + [d])[1..] == deviceIds[1..] + [d];
      SupersededTotalAppend(state, deviceIds[1..], d, selected);
    }
  }
}

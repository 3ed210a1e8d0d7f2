/** The index of stored frames agrees with the queues that bound it. */
module IndexAgreement {
  import opened Wrappers
  import opened SyncModels
  import opened BufferSpec
  import opened SyncSpec
  import opened ArchiveSpec
  import opened PruningInvisible

  /** The keys a camera retains are distinct, few, and indexed to frames of that camera. */
  ghost predicate CameraIndexed(camera: CameraState, d: string, index: map<string, SyncFrame>, size: nat)
  {
    && |camera.retainedKeys| <= size
    && Distinct(camera.retainedKeys)
    && KeysIndexed(camera.retainedKeys, d, index)
  }

  /** Every indexed key is retained by exactly the camera of its frame. */
  ghost predicate Agrees(buffers: BufferState)
  {
    && (forall d :: CameraIndexed(buffers.Camera(d), d, buffers.index, buffers.size))
    && (forall k | k in buffers.index :: k in buffers.Camera(buffers.index[k].deviceId).retainedKeys)
  }

  // ----- storing -----

  /** Of a camera's retained keys the newest are kept, and the index loses the others. */
  ghost predicate Trimmed(
      keys: seq<string>, kept: seq<string>, before: map<string, SyncFrame>, after: map<string, SyncFrame>)
  {
    && |kept| <= |keys| && kept == keys[|keys| - |kept|..]
    && (forall k | k in after :: k in before && k !in keys[..|keys| - |kept|] && after[k] == before[k])
    && (forall k | k in before :: k in after || k in keys[..|keys| - |kept|])
  }

  lemma {:induction false} TrimIs(keys: seq<string>, index: map<string, SyncFrame>, limit: nat)
    ensures |Trim(keys, index, limit).0| == if |keys| > limit then limit else |keys|
    ensures Trimmed(keys, Trim(keys, index, limit).0, index, Trim(keys, index, limit).1)
  {
    if |keys| > limit {
      var (kept, left) := Trim(keys, index, limit);
      TrimIs(keys[1..], index - {keys[0]}, limit);
      TrimmedNext(keys, kept, index, left);
    }
  }

  lemma TrimmedNext(keys: seq<string>, kept: seq<string>, before: map<string, SyncFrame>, after: map<string, SyncFrame>)
    requires keys != [] && Trimmed(keys[1..], kept, before - {keys[0]}, after)
    ensures Trimmed(keys, kept, before, after)
  {
    assert keys[..|keys| - |kept|] == [keys[0]] + keys[1..][..|keys| - 1 - |kept|];
  }

  lemma TrimmedByStoring(buffers: BufferState, frame: SyncFrame)
    requires buffers.Accepts(frame)
    ensures var added := buffers.AddFrame(frame);
            var kept := added.Camera(frame.deviceId).retainedKeys;
            && |kept| == (if |buffers.Camera(frame.deviceId).retainedKeys| + 1 > buffers.size then buffers.size
                          else |buffers.Camera(frame.deviceId).retainedKeys| + 1)
            && Trimmed(buffers.Camera(frame.deviceId).retainedKeys + [frame.bufferKey], kept,
                       buffers.index[frame.bufferKey := frame], added.index)
  {
    AddedCamera(buffers, frame, frame.deviceId);
    hide *;
    TrimIs(buffers.Camera(frame.deviceId).retainedKeys + [frame.bufferKey],
        buffers.index[frame.bufferKey := frame], buffers.size);
  }

  lemma KeptIfIndexed(
      keys: seq<string>, kept: seq<string>, before: map<string, SyncFrame>, after: map<string, SyncFrame>, k: string)
    requires Trimmed(keys, kept, before, after) && k in after
    ensures k in before && after[k] == before[k] && (k in keys ==> k in kept)
  {
    assert keys == keys[..|keys| - |kept|] + kept;
  }

  ghost predicate KeysIndexed(keys: seq<string>, d: string, index: map<string, SyncFrame>)
  {
    forall k | k in keys :: k in index && index[k].deviceId == d && index[k].bufferKey == k
  }

  lemma DistinctParts(keys: seq<string>, n: nat)
    requires Distinct(keys) && n <= |keys|
    ensures Distinct(keys[n..]) && (forall k | k in keys[n..] :: k !in keys[..n])
  {
  }

  /** The keys a camera keeps stay indexed when the rest leaves. */
  lemma KeptStayIndexed(
    keys: seq<string>, kept: seq<string>, d: string, before: map<string, SyncFrame>, after: map<string, SyncFrame>)
    requires Distinct(keys) && KeysIndexed(keys, d, before) && Trimmed(keys, kept, before, after)
    ensures Distinct(kept) && KeysIndexed(kept, d, after)
  {
    DistinctParts(keys, |keys| - |kept|);
    assert forall k | k in kept :: k in keys;
  }

  /** Another camera's keys are not touched, because they are indexed to that camera. */
  lemma OthersStayIndexed(
    keys: seq<string>, kept: seq<string>, d: string, before: map<string, SyncFrame>, after: map<string, SyncFrame>,
    others: seq<string>, e: string)
    requires KeysIndexed(keys, d, before) && Trimmed(keys, kept, before, after)
    requires KeysIndexed(others, e, before) && d != e
    ensures KeysIndexed(others, e, after)
  {
    assert forall k | k in others :: k !in keys;
  }

  lemma OneMoreIndexed(keys: seq<string>, d: string, index: map<string, SyncFrame>, frame: SyncFrame)
    requires KeysIndexed(keys, d, index) && frame.bufferKey !in index
    ensures KeysIndexed(keys, d, index[frame.bufferKey := frame]) && frame.bufferKey !in keys
    ensures frame.deviceId == d ==> KeysIndexed(keys + [frame.bufferKey], d, index[frame.bufferKey := frame])
  {
  }

  lemma AddKeepsIndexed(buffers: BufferState, frame: SyncFrame, d: string)
    requires Agrees(buffers) && buffers.Accepts(frame)
    ensures var added := buffers.AddFrame(frame); CameraIndexed(added.Camera(d), d, added.index, added.size)
  {
    var added, e := buffers.AddFrame(frame), frame.deviceId;
    var own := buffers.Camera(e).retainedKeys;
    TrimmedByStoring(buffers, frame);
    AddedCamera(buffers, frame, d);
    AddedCamera(buffers, frame, e);
    assert CameraIndexed(buffers.Camera(d), d, buffers.index, buffers.size);
    assert CameraIndexed(buffers.Camera(e), e, buffers.index, buffers.size);
    hide BufferState.AddFrame, BufferState.Camera, BufferState.Accepts, Agrees, Trimmed, Trim, Bounded;
    OneMoreIndexed(own, e, buffers.index, frame);
    assert Distinct(own + [frame.bufferKey]);
    OneMoreIndexed(buffers.Camera(d).retainedKeys, d, buffers.index, frame);
    var stored := buffers.index[frame.bufferKey := frame];
    if d == e {
      KeptStayIndexed(own + [frame.bufferKey], added.Camera(e).retainedKeys, e, stored, added.index);
    } else {
      OthersStayIndexed(own + [frame.bufferKey], added.Camera(e).retainedKeys, e, stored, added.index,
                        buffers.Camera(d).retainedKeys, d);
    }
  }

  lemma IndexedKeysRetained(buffers: BufferState, frame: SyncFrame, k: string)
    requires Agrees(buffers) && buffers.Accepts(frame) && k in buffers.AddFrame(frame).index
    ensures var added := buffers.AddFrame(frame); k in added.Camera(added.index[k].deviceId).retainedKeys
  {
    var added, e := buffers.AddFrame(frame), frame.deviceId;
    var keys := buffers.Camera(e).retainedKeys + [frame.bufferKey];
    TrimmedByStoring(buffers, frame);
    KeptIfIndexed(keys, added.Camera(e).retainedKeys, buffers.index[frame.bufferKey := frame], added.index, k);
    AddedCamera(buffers, frame, added.index[k].deviceId);
    if k != frame.bufferKey {
      assert k in buffers.Camera(buffers.index[k].deviceId).retainedKeys;
    }
    assert added.index[k].deviceId == e ==> k in keys;
  }

  lemma {:induction false} AgreesAfterAdd(buffers: BufferState, frame: SyncFrame)
    requires Agrees(buffers)
    ensures Agrees(buffers.AddFrame(frame))
  {
    var added := buffers.AddFrame(frame);
    AddedCamera(buffers, frame, frame.deviceId);
    if buffers.Accepts(frame) {
      hide BufferState.AddFrame, BufferState.Camera, CameraIndexed;
      forall d ensures CameraIndexed(added.Camera(d), d, added.index, added.size) {
        AddKeepsIndexed(buffers, frame, d);
      }
      forall k | k in added.index ensures k in added.Camera(added.index[k].deviceId).retainedKeys {
        IndexedKeysRetained(buffers, frame, k);
      }
    } else {
      forall d ensures added.Camera(d) == buffers.Camera(d) {
        AddedCamera(buffers, frame, d);
      }
      SameKeysAgree(buffers, added);
    }
  }

  /** Agreement depends only on the index and the retained keys. */
  lemma SameKeysAgree(a: BufferState, b: BufferState)
    requires Agrees(a) && b.size == a.size && b.index == a.index
    requires forall d :: b.Camera(d).retainedKeys == a.Camera(d).retainedKeys
    ensures Agrees(b)
  {
    forall d ensures CameraIndexed(b.Camera(d), d, b.index, b.size) {
      assert CameraIndexed(a.Camera(d), d, a.index, a.size);
    }
  }

  // ----- everything else leaves the retained keys alone -----

  lemma AgreesAfterFinalize(buffers: BufferState, key: string, archive: Archive)
    requires Agrees(buffers)
    ensures Agrees(buffers.FinalizeArchive(key, archive))
  {
    if key in buffers.index {
      var after := buffers.FinalizeArchive(key, archive);
      forall d ensures CameraIndexed(after.Camera(d), d, after.index, after.size) {
        FinalizedCamera(buffers, key, archive, d);
        assert CameraIndexed(buffers.Camera(d), d, buffers.index, buffers.size);
        FinalizeKeepsIndexed(buffers.Camera(d).retainedKeys, d, buffers.index, key, archive);
        assert buffers.index[key].bufferKey == key by {
          assert key in buffers.Camera(buffers.index[key].deviceId).retainedKeys;
          var e := buffers.index[key].deviceId;
          assert CameraIndexed(buffers.Camera(e), e, buffers.index, buffers.size);
        }
      }
      forall k | k in after.index ensures k in after.Camera(after.index[k].deviceId).retainedKeys {
        FinalizedCamera(buffers, key, archive, buffers.index[k].deviceId);
        assert k in buffers.Camera(buffers.index[k].deviceId).retainedKeys;
      }
    }
  }

  lemma FinalizeKeepsIndexed(keys: seq<string>, d: string, index: map<string, SyncFrame>, key: string, archive: Archive)
    requires KeysIndexed(keys, d, index) && key in index
    ensures KeysIndexed(keys, d, index[key := index[key].(archive := archive)])
  {
  }

  lemma FinalizedCamera(buffers: BufferState, key: string, archive: Archive, d: string)
    requires key in buffers.index
    ensures var after, updated := buffers.FinalizeArchive(key, archive), buffers.index[key].(archive := archive);
            && after.index == buffers.index[key := updated]
            && after.size == buffers.size
            && after.Camera(d)
               == if d == updated.deviceId
                  then buffers.Camera(d).(frames := Replaced(buffers.Camera(d).frames, updated))
                  else buffers.Camera(d)
  {
  }

  lemma StepKeepsIndexed(config: Config, pruning: bool, state: SyncState, input: Input)
    ensures var added := state.buffers.AddFrame(Stored(input.frame));
            var after := HandleFrame(config, pruning, state, input).state.buffers;
            after.index == added.index && after.size == added.size
  {
    hide Attempt, Best, BufferState.AddFrame, BufferState.Accepts;
    var added := state.(buffers := state.buffers.AddFrame(Stored(input.frame)));
    if config.cameras != [] {
      AttemptBuffers(config, added, input);
    }
  }

  lemma ThinnedKeepsKeys(before: CameraState, after: CameraState)
    requires Thinned(before, after)
    ensures after.retainedKeys == before.retainedKeys
  {
  }

  /** After storing, a step touches neither the index nor the retained keys. */
  lemma StepKeepsIndex(config: Config, pruning: bool, state: SyncState, input: Input)
    ensures var added := state.buffers.AddFrame(Stored(input.frame));
            var after := HandleFrame(config, pruning, state, input).state.buffers;
            && after.index == added.index && after.size == added.size
            && forall d :: after.Camera(d).retainedKeys == added.Camera(d).retainedKeys
  {
    hide *;
    StepKeepsIndexed(config, pruning, state, input);
    forall d ensures HandleFrame(config, pruning, state, input).state.buffers.Camera(d).retainedKeys
                     == state.buffers.AddFrame(Stored(input.frame)).Camera(d).retainedKeys
    {
      StepThins(config, pruning, state, input, d);
      ThinnedKeepsKeys(state.buffers.AddFrame(Stored(input.frame)).Camera(d),
                       HandleFrame(config, pruning, state, input).state.buffers.Camera(d));
    }
  }

  lemma AgreesAfterEvent(config: Config, state: SyncState, event: Event)
    requires Agrees(state.buffers)
    ensures Agrees(Apply(config, state, event).buffers)
  {
    match event
    case Arrived(input) =>
      AgreesAfterAdd(state.buffers, Stored(input.frame));
      StepKeepsIndex(config, true, state, input);
      hide *;
      SameKeysAgree(state.buffers.AddFrame(Stored(input.frame)), HandleFrame(config, true, state, input).state.buffers);
      ApplyArrived(config, state, input);
    case Completed(frame, given, archive) =>
      AgreesAfterFinalize(state.buffers, BuildBufferKey(frame), archive);
      hide *;
      ApplyCompleted(config, state, frame, given, archive);
  }

  lemma ApplyArrived(config: Config, state: SyncState, input: Input)
    ensures Apply(config, state, Arrived(input)) == HandleFrame(config, true, state, input).state
  {
  }

  lemma ApplyCompleted(config: Config, state: SyncState, frame: SyncFrame, given: Option<FrameSet>, archive: Archive)
    ensures Apply(config, state, Completed(frame, given, archive)).buffers
            == state.buffers.FinalizeArchive(BuildBufferKey(frame), archive)
  {
    hide BufferState.FinalizeArchive, ReplaceFrameMember, BuildBufferKey, CompletedFrame, NewestHolding;
  }

  /** The index agrees with the retained queues in every run, of whatever frames and completions. */
  lemma {:induction false} IndexAlwaysAgrees(config: Config, state: SyncState, events: seq<Event>)
    requires Agrees(state.buffers)
    ensures Agrees(Play(config, state, events).buffers)
    decreases |events|
  {
    if events != [] {
      hide Agrees, Apply;
      AgreesAfterEvent(config, state, events[0]);
      IndexAlwaysAgrees(config, Apply(config, state, events[0]), events[1..]);
    }
  }

  // ----- the bound -----

  function Elements(keys: seq<string>): set<string>
  {
    set k | k in keys
  }

  lemma {:induction false} FewElements(keys: seq<string>)
    ensures |Elements(keys)| <= |keys|
  {
    if keys == [] {
      assert Elements(keys) == {};
    } else {
      FewElements(keys[1..]);
      assert keys == [keys[0]] + keys[1..];
      assert Elements(keys) == {keys[0]} + Elements(keys[1..]);
    }
  }

  lemma OneMoreTimes(n: nat, size: nat)
    ensures (n + 1) * size == n * size + size
  {
  }

  lemma {:induction false} FewKeys(buffers: BufferState, keys: set<string>, devices: set<string>)
    requires forall d | d in devices :: |buffers.Camera(d).retainedKeys| <= buffers.size
    requires forall k | k in keys :: exists d | d in devices :: k in buffers.Camera(d).retainedKeys
    ensures |keys| <= |devices| * buffers.size
    decreases |devices|
  {
    if devices == {} {
      assert keys == {};
    } else {
      var d :| d in devices;
      hide BufferState.Camera;
      var own := Elements(buffers.Camera(d).retainedKeys);
      FewElements(buffers.Camera(d).retainedKeys);
      forall k | k in keys - own ensures exists e | e in devices - {d} :: k in buffers.Camera(e).retainedKeys {
        var e :| e in devices && k in buffers.Camera(e).retainedKeys;
      }
      FewKeys(buffers, keys - own, devices - {d});
      assert keys <= own + (keys - own);
      SubsetSmaller(keys, own, keys - own);
      OneMoreTimes(|devices - {d}|, buffers.size);
    }
  }

  lemma SubsetSmaller(a: set<string>, b: set<string>, c: set<string>)
    requires a <= b + c
    ensures |a| <= |b| + |c|
  {
    assert a == a * (b + c);
    SmallerSubset(a, b + c);
  }

  lemma {:induction false} SmallerSubset(a: set<string>, b: set<string>)
    requires a <= b
    ensures |a| <= |b|
    decreases b
  {
    if a != {} {
      var x :| x in a;
      SmallerSubset(a - {x}, b - {x});
    }
  }

  /** At most `size` frames per camera are indexed. */
  lemma {:induction false} IndexIsBounded(config: Config, size: nat, runId: string, events: seq<Event>)
    ensures var buffers := Play(config, Initial(size, runId), events).buffers;
            |buffers.index| <= |buffers.cameras| * buffers.size
  {
    var buffers := Play(config, Initial(size, runId), events).buffers;
    IndexAlwaysAgrees(config, Initial(size, runId), events);
    assert Agrees(buffers);
    forall d | d in buffers.cameras ensures |buffers.Camera(d).retainedKeys| <= buffers.size {
      assert CameraIndexed(buffers.Camera(d), d, buffers.index, buffers.size);
    }
    forall k | k in buffers.index.Keys
      ensures exists d | d in buffers.cameras.Keys :: k in buffers.Camera(d).retainedKeys
    {
      assert k in buffers.Camera(buffers.index[k].deviceId).retainedKeys;
    }
    FewKeys(buffers, buffers.index.Keys, buffers.cameras.Keys);
  }
}

/** What a frame set says about the archiving of its members, and what a completion answers. */
module ArchiveStates {
  import opened Wrappers
  import opened SyncModels
  import opened BufferSpec
  import opened SyncSpec
  import opened ArchiveSpec
  import opened PruningInvisible

  /** The member's text among the errors of its set. */
  predicate Explains(member: SyncFrame, text: string)
  {
    && member.archive.state == ARCHIVE_DEGRADED_LIVE_ONLY
    && (if member.archive.error in {None, Some("")} then text == "member archive unavailable"
        else member.archive.error == Some(text))
  }

  /** The set is degraded exactly if a member is, and else pending; its errors are those of the
      degraded members. */
  ghost predicate StateFollows(emitted: FrameSet)
  {
    && (emitted.archiveState == ARCHIVE_DEGRADED_LIVE_ONLY
        <==> exists d :: d in emitted.frames && emitted.frames[d].archive.state == ARCHIVE_DEGRADED_LIVE_ONLY)
    && (emitted.archiveState == ARCHIVE_DEGRADED_LIVE_ONLY || emitted.archiveState == ARCHIVE_PENDING)
    && forall text ::
         text in emitted.archiveErrors <==> exists d :: d in emitted.frames && Explains(emitted.frames[d], text)
  }

  lemma DerivedFollows(emitted: FrameSet)
    requires emitted.archiveState == SetArchiveState(emitted.frames)
    requires emitted.archiveErrors == SetArchiveErrors(emitted.frames)
    ensures StateFollows(emitted)
  {
    forall text
      ensures text in emitted.archiveErrors <==> exists d :: d in emitted.frames && Explains(emitted.frames[d], text)
    {
      if d :| d in emitted.frames && Explains(emitted.frames[d], text) {
        assert ErrorText(emitted.frames[d].archive) == text;
      }
    }
  }

  // ----- at the match -----

  lemma EmitFollows(config: Config, state: SyncState, frames: Selection, identity: CaptureIdentity, input: Input)
    requires frames != map[] && forall d :: d in config.cameras <==> d in frames
    ensures Emit(config, state, frames, identity, input).emitted.Some?
    ensures StateFollows(Emit(config, state, frames, identity, input).emitted.value)
  {
    DerivedFollows(Emit(config, state, frames, identity, input).emitted.value) by {
      hide ManifestOf, SetArchiveState, SetArchiveErrors;
    }
  }

  lemma StepFollows(config: Config, pruning: bool, state: SyncState, input: Input)
    ensures var emitted := HandleFrame(config, pruning, state, input).emitted;
            emitted.Some? ==> StateFollows(emitted.value)
  {
    hide Attempt, Prune, StateFollows, Best, IdentityResolution.Resolve, Emit, BufferState.AddFrame;
    var added := state.(buffers := state.buffers.AddFrame(Stored(input.frame)));
    if config.cameras != [] && Attempt(config, added, input).emitted.Some? {
      var best := Best(config, added);
      if best.None? || IdentityResolution.Resolve(Members(config.cameras, best.value)).ScopeConflict? {
        AttemptMisses(config, added, input);
      } else {
        var identity := IdentityResolution.Resolve(Members(config.cameras, best.value)).identity;
        AttemptEmits(config, added, input, best.value, identity);
        EmitFollows(config, added, best.value, identity, input);
      }
    }
  }

  /** Every emitted set tells of its members as they are at the match. */
  lemma {:induction false} EmittedFollows(config: Config, pruning: bool, state: SyncState, inputs: seq<Input>, i: nat)
    requires i < |Run(config, pruning, state, inputs).emitted|
    ensures StateFollows(Run(config, pruning, state, inputs).emitted[i])
    decreases |inputs|
  {
    hide HandleFrame, StateFollows;
    var step := HandleFrame(config, pruning, state, inputs[0]);
    if i < |AsSeq(step.emitted)| {
      StepFollows(config, pruning, state, inputs[0]);
    } else {
      EmittedFollows(config, pruning, step.state, inputs[1..], i - |AsSeq(step.emitted)|);
    }
  }

  // ----- at a completion -----

  predicate Has(emitted: FrameSet, key: string)
  {
    exists d :: d in emitted.frames && emitted.frames[d].bufferKey == key
  }

  /** The first member with the key, in the order of the cameras. */
  predicate IsFirst(cameras: seq<string>, frames: Selection, key: string, d: string)
  {
    && d in frames && frames[d].bufferKey == key
    && exists i :: && 0 <= i < |cameras| && cameras[i] == d
                   && forall j | 0 <= j < i :: cameras[j] in frames ==> frames[cameras[j]].bufferKey != key
  }

  /** The set with its first member of the key replaced, and state and errors to match. */
  ghost predicate IsUpdate(cameras: seq<string>, before: FrameSet, after: FrameSet, member: SyncFrame)
  {
    && after.frames.Keys == before.frames.Keys && StateFollows(after)
    && (forall d | d in before.frames ::
          after.frames[d]
          == if IsFirst(cameras, before.frames, member.bufferKey, d) then member else before.frames[d])
    && after == before.(frames := after.frames, archiveState := after.archiveState,
                        archiveErrors := after.archiveErrors)
  }

  lemma FirstOfRest(cameras: seq<string>, frames: Selection, key: string, d: string)
    requires cameras != [] && !(cameras[0] in frames && frames[cameras[0]].bufferKey == key)
    ensures IsFirst(cameras, frames, key, d) <==> IsFirst(cameras[1..], frames, key, d)
  {
    if IsFirst(cameras, frames, key, d) {
      var i :| && 0 <= i < |cameras| && cameras[i] == d
               && forall j | 0 <= j < i :: cameras[j] in frames ==> frames[cameras[j]].bufferKey != key;
      assert cameras[1..][i - 1] == d;
    }
    if IsFirst(cameras[1..], frames, key, d) {
      var rest := cameras[1..];
      var i :| && 0 <= i < |rest| && rest[i] == d
               && forall j | 0 <= j < i :: rest[j] in frames ==> frames[rest[j]].bufferKey != key;
      assert cameras[i + 1] == d;
      forall j | 0 <= j < i + 1 ensures cameras[j] in frames ==> frames[cameras[j]].bufferKey != key {
        if j > 0 { assert cameras[j] == rest[j - 1]; }
      }
    }
  }

  lemma {:induction false} WithMemberIs(cameras: seq<string>, frames: Selection, member: SyncFrame)
    ensures var after := WithMember(cameras, frames, member);
            && after.Keys == frames.Keys
            && forall d | d in frames ::
                 after[d] == if IsFirst(cameras, frames, member.bufferKey, d) then member else frames[d]
  {
    var key := member.bufferKey;
    if cameras != [] {
      if cameras[0] in frames && frames[cameras[0]].bufferKey == key {
        assert IsFirst(cameras, frames, key, cameras[0]);
        forall d | d in frames && d != cameras[0] ensures !IsFirst(cameras, frames, key, d) {
        }
      } else {
        WithMemberIs(cameras[1..], frames, member);
        forall d | d in frames
          ensures IsFirst(cameras, frames, key, d) <==> IsFirst(cameras[1..], frames, key, d)
        {
          FirstOfRest(cameras, frames, key, d);
        }
      }
    }
  }

  lemma ReplacedIsUpdate(config: Config, before: FrameSet, member: SyncFrame)
    ensures IsUpdate(config.cameras, before, ReplaceFrameMember(config, before, member), member)
  {
    WithMemberIs(config.cameras, before.frames, member);
    hide IsFirst, StateFollows, WithMember, SetArchiveState, SetArchiveErrors;
    DerivedFollows(ReplaceFrameMember(config, before, member));
  }

  /** No later recent set has the key. */
  ghost predicate IsNewestWith(recent: seq<FrameSet>, key: string, n: nat)
  {
    n < |recent| && Has(recent[n], key) && forall m | n < m < |recent| :: !Has(recent[m], key)
  }

  lemma {:induction false} NewestIs(recent: seq<FrameSet>, key: string)
    ensures var n := NewestHolding(recent, key);
            if n == 0 then forall m | 0 <= m < |recent| :: !Has(recent[m], key) else IsNewestWith(recent, key, n - 1)
  {
    if recent != [] {
      var last := recent[|recent| - 1];
      assert HoldsKey(last, key) <==> Has(last, key);
      if !HoldsKey(last, key) {
        NewestIs(recent[..|recent| - 1], key);
        var n := NewestHolding(recent[..|recent| - 1], key);
        hide Has, HoldsKey;
        forall m | n <= m < |recent| ensures !Has(recent[m], key) {
          if m < |recent| - 1 { assert recent[m] == recent[..|recent| - 1][m]; }
        }
      }
    }
  }

  /** Some expected camera's member of the set has the key. */
  predicate Shows(cameras: seq<string>, frames: Selection, key: string)
  {
    exists i :: 0 <= i < |cameras| && cameras[i] in frames && frames[cameras[i]].bufferKey == key
  }

  lemma {:induction false} FoundInSet(cameras: seq<string>, frames: Selection, key: string)
    ensures var found := FindInSet(cameras, frames, key);
            && (found.Some? <==> Shows(cameras, frames, key))
            && (found.Some? ==> exists d :: d in frames && frames[d] == found.value && frames[d].bufferKey == key)
  {
    if cameras != [] {
      FoundInSet(cameras[1..], frames, key);
      if Shows(cameras, frames, key) && !(cameras[0] in frames && frames[cameras[0]].bufferKey == key) {
        var i :| 0 <= i < |cameras| && cameras[i] in frames && frames[cameras[i]].bufferKey == key;
        assert cameras[1..][i - 1] == cameras[i];
      }
      if Shows(cameras[1..], frames, key) {
        var i :| 0 <= i < |cameras| - 1 && cameras[1..][i] in frames && frames[cameras[1..][i]].bufferKey == key;
        assert cameras[i + 1] == cameras[1..][i];
      }
    }
  }

  /** A member with the key is found among the candidates exactly if one shows it. */
  lemma {:induction false} FoundAmong(cameras: seq<string>, candidates: seq<FrameSet>, key: string)
    ensures var found := FindMember(cameras, candidates, key);
            && (found.Some? <==> exists m :: 0 <= m < |candidates| && Shows(cameras, candidates[m].frames, key))
            && (found.Some? ==>
                  && found.value.bufferKey == key
                  && exists m, d :: && 0 <= m < |candidates| && d in candidates[m].frames
                                    && candidates[m].frames[d] == found.value)
  {
    if candidates != [] {
      FoundInSet(cameras, candidates[0].frames, key);
      FoundAmong(cameras, candidates[1..], key);
      hide Shows, FindInSet;
      var rest := candidates[1..];
      assert forall m | 0 < m < |candidates| :: candidates[m] == rest[m - 1];
      if FindInSet(cameras, candidates[0].frames, key).None? && FindMember(cameras, rest, key).Some? {
        var m :| 0 <= m < |rest| && Shows(cameras, rest[m].frames, key);
        assert candidates[m + 1] == rest[m];
        var n, d :| && 0 <= n < |rest| && d in rest[n].frames
                    && rest[n].frames[d] == FindMember(cameras, rest, key).value;
        assert candidates[n + 1].frames[d] == FindMember(cameras, rest, key).value;
      }
    }
  }

  /** The completed frame: the indexed one, else a member of a recent set or of the caller's. */
  lemma {:induction false} CompletedFrameIs(config: Config, state: SyncState, key: string, given: Option<FrameSet>)
    ensures var found, sets := CompletedFrame(config, state, key, given), state.matcher.recent + AsSeq(given);
            if key in state.buffers.index then found == Some(state.buffers.index[key])
            else
              && (found.Some? <==> exists m :: 0 <= m < |sets| && Shows(config.cameras, sets[m].frames, key))
              && (found.Some? ==>
                    && found.value.bufferKey == key
                    && exists m, d :: 0 <= m < |sets| && d in sets[m].frames && sets[m].frames[d] == found.value)
  {
    FoundAmong(config.cameras, state.matcher.recent + AsSeq(given), key);
    hide Shows, FindMember;
  }

  /** The newest recent set that has the key, else the caller's, with the member replaced. */
  ghost predicate Updates(
      cameras: seq<string>, recent: seq<FrameSet>, given: Option<FrameSet>, updated: FrameSet, member: SyncFrame)
  {
    if forall m | 0 <= m < |recent| :: !Has(recent[m], member.bufferKey)
    then given.Some? && IsUpdate(cameras, given.value, updated, member)
    else exists n: nat ::
      IsNewestWith(recent, member.bufferKey, n) && IsUpdate(cameras, recent[n], updated, member)
  }

  lemma TargetUpdates(config: Config, recent: seq<FrameSet>, given: Option<FrameSet>, member: SyncFrame)
    ensures var target := Target(recent, given, member.bufferKey);
            if target.None? then given.None? && forall m | 0 <= m < |recent| :: !Has(recent[m], member.bufferKey)
            else Updates(config.cameras, recent, given, ReplaceFrameMember(config, target.value, member), member)
  {
    NewestIs(recent, member.bufferKey);
    hide NewestHolding, Has, IsUpdate, ReplaceFrameMember;
    var n := NewestHolding(recent, member.bufferKey);
    if n > 0 {
      ReplacedIsUpdate(config, recent[n - 1], member);
    } else if given.Some? {
      ReplacedIsUpdate(config, given.value, member);
    }
  }

  /** A completion answers with the newest recent set that has the key, else with the caller's,
      updated, and puts the update into the recent sets under its number. A frame that is
      nowhere held leaves the caller's set as it is. */
  lemma {:induction false} CompletionAnswers(
      config: Config, state: SyncState, frame: SyncFrame, given: Option<FrameSet>, archive: Archive)
    requires var key := BuildBufferKey(frame);
             key in state.buffers.index ==> state.buffers.index[key].bufferKey == key
    ensures var key, done := BuildBufferKey(frame), FinalizeFrameArchive(config, state, frame, given, archive);
            var found, recent := CompletedFrame(config, state, key, given), state.matcher.recent;
            var after := done.state.matcher.recent;
            && done.state.matcher == state.matcher.(recent := after) && |after| == |recent|
            && (if found.None? then done.result == given && after == recent
                else if given.None? && forall m | 0 <= m < |recent| :: !Has(recent[m], key)
                then done.result.None? && after == recent
                else
                  && done.result.Some?
                  && Updates(config.cameras, recent, given, done.result.value, found.value.(archive := archive))
                  && forall m | 0 <= m < |recent| ::
                       after[m]
                       == if && recent[m].captureRunId == done.result.value.captureRunId
                             && recent[m].frameSetId == done.result.value.frameSetId
                          then done.result.value else recent[m])
  {
    var key := BuildBufferKey(frame);
    var found, recent := CompletedFrame(config, state, key, given), state.matcher.recent;
    CompletedFrameIs(config, state, key, given);
    if found.Some? {
      TargetUpdates(config, recent, given, found.value.(archive := archive));
      TargetHas(recent, given, key);
    }
    hide Has, Updates, IsUpdate, StateFollows, ReplaceFrameMember, CompletedFrame, Target, BuildBufferKey;
  }

  lemma TargetHas(recent: seq<FrameSet>, given: Option<FrameSet>, key: string)
    ensures Target(recent, given, key).None? <==> given.None? && forall m | 0 <= m < |recent| :: !Has(recent[m], key)
  {
    NewestIs(recent, key);
    hide Has, NewestHolding;
  }
}

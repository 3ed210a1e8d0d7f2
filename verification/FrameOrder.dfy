/** The order in which one camera's candidates are tried, (timestamp, key), and the
    order in which the cameras' heads are popped, (timestamp, key, device). */
module FrameOrder {
  import opened SyncModels
  import opened BufferSpec
  import TextOrder

  predicate FrameLess(a: SyncFrame, b: SyncFrame)
  {
    || a.timestampMs < b.timestampMs
    || (a.timestampMs == b.timestampMs && TextOrder.Less(a.bufferKey, b.bufferKey))
  }

  predicate Sorted(frames: seq<SyncFrame>)
  {
    forall i, j | 0 <= i < j < |frames| :: !FrameLess(frames[j], frames[i])
  }

  lemma NotLessTransitive(a: SyncFrame, b: SyncFrame, c: SyncFrame)
    requires !FrameLess(b, a) && !FrameLess(c, b)
    ensures !FrameLess(c, a)
  {
    TextOrder.Total(a.bufferKey, b.bufferKey);
    TextOrder.Total(b.bufferKey, c.bufferKey);
    TextOrder.Total(a.bufferKey, c.bufferKey);
    if TextOrder.Less(c.bufferKey, a.bufferKey) && TextOrder.Less(a.bufferKey, b.bufferKey) {
      TextOrder.Transitive(c.bufferKey, a.bufferKey, b.bufferKey);
    }
  }

  /** Insertion keeps equal frames in arrival order, as a stable sort does. */
  function Insert(frame: SyncFrame, frames: seq<SyncFrame>): (r: seq<SyncFrame>)
    requires Sorted(frames)
    ensures Sorted(r) && |r| == |frames| + 1
    ensures forall f :: f in r <==> f == frame || f in frames
  {
    if frames == [] then [frame]
    else if !FrameLess(frames[0], frame) then
      InsertFront(frame, frames);
      [frame] + frames
    else
      var rest := Insert(frame, frames[1..]);
      InsertBehind(frames[0], frame, frames[1..], rest);
      assert forall f :: f in frames <==> f == frames[0] || f in frames[1..];
      [frames[0]] + rest
  }

  lemma InsertFront(frame: SyncFrame, frames: seq<SyncFrame>)
    requires Sorted(frames) && frames != [] && !FrameLess(frames[0], frame)
    ensures Sorted([frame] + frames)
  {
    forall j | 0 <= j < |frames| ensures !FrameLess(frames[j], frame) {
      if j > 0 { NotLessTransitive(frame, frames[0], frames[j]); }
    }
  }

  lemma InsertBehind(head: SyncFrame, frame: SyncFrame, tail: seq<SyncFrame>, rest: seq<SyncFrame>)
    requires FrameLess(head, frame) && Sorted(rest)
    requires forall f :: f in rest <==> f == frame || f in tail
    requires forall f | f in tail :: !FrameLess(f, head)
    ensures Sorted([head] + rest)
  {
    TextOrder.Total(head.bufferKey, frame.bufferKey);
    forall j | 0 <= j < |rest| ensures !FrameLess(rest[j], head) {
      assert rest[j] in rest;
    }
  }

  function SortFrames(frames: seq<SyncFrame>): (r: seq<SyncFrame>)
    ensures Sorted(r) && |r| == |frames|
    ensures forall f :: f in r <==> f in frames
  {
    if frames == [] then []
    else
      assert forall f :: f in frames <==> f == frames[0] || f in frames[1..];
      Insert(frames[0], SortFrames(frames[1..]))
  }

  lemma {:induction false} InsertAdds(frame: SyncFrame, frames: seq<SyncFrame>)
    requires Sorted(frames)
    ensures multiset(Insert(frame, frames)) == multiset(frames) + multiset{frame}
  {
    if frames != [] {
      assert frames == [frames[0]] + frames[1..];
      if FrameLess(frames[0], frame) {
        InsertAdds(frame, frames[1..]);
      }
    }
  }

  /** Sorting loses and invents no frame. */
  lemma {:induction false} SortPermutes(frames: seq<SyncFrame>)
    ensures multiset(SortFrames(frames)) == multiset(frames)
  {
    if frames != [] {
      assert frames == [frames[0]] + frames[1..];
      SortPermutes(frames[1..]);
      InsertAdds(frames[0], SortFrames(frames[1..]));
    }
  }

  lemma SortedIsAscending(frames: seq<SyncFrame>)
    requires Sorted(frames)
    ensures Ascending(frames)
  {
  }

  /** Dropping old frames and sorting can be done in either order. */
  lemma {:induction false} SortNotBefore(frames: seq<SyncFrame>, cutoffMs: int)
    ensures SortFrames(NotBefore(frames, cutoffMs)) == NotBefore(SortFrames(frames), cutoffMs)
  {
    if frames != [] {
      SortNotBefore(frames[1..], cutoffMs);
      InsertNotBefore(frames[0], SortFrames(frames[1..]), cutoffMs);
      if frames[0].timestampMs >= cutoffMs {
        var kept := NotBefore(frames, cutoffMs);
        assert kept[0] == frames[0] && kept[1..] == NotBefore(frames[1..], cutoffMs);
      }
    }
  }

  lemma NotBeforeCons(frame: SyncFrame, rest: seq<SyncFrame>, cutoffMs: int)
    ensures NotBefore([frame] + rest, cutoffMs)
            == if frame.timestampMs >= cutoffMs then [frame] + NotBefore(rest, cutoffMs)
               else NotBefore(rest, cutoffMs)
  {
    assert ([frame] + rest)[1..] == rest;
  }

  lemma {:induction false} InsertNotBefore(frame: SyncFrame, frames: seq<SyncFrame>, cutoffMs: int)
    requires Sorted(frames)
    ensures Sorted(NotBefore(frames, cutoffMs))
    ensures NotBefore(Insert(frame, frames), cutoffMs) == KeptInsert(frame, NotBefore(frames, cutoffMs), cutoffMs)
  {
    NotBeforeIsSuffix(frames, cutoffMs);
    if frames == [] || !FrameLess(frames[0], frame) {
      InsertNotBeforeFront(frame, frames, cutoffMs);
    } else {
      var head, rest := frames[0], frames[1..];
      InsertNotBefore(frame, rest, cutoffMs);
      NotBeforeCons(head, Insert(frame, rest), cutoffMs);
      if head.timestampMs >= cutoffMs {
        InsertCons(frame, head, NotBefore(rest, cutoffMs));
      }
    }
  }

  function KeptInsert(frame: SyncFrame, kept: seq<SyncFrame>, cutoffMs: int): seq<SyncFrame>
    requires Sorted(kept)
  {
    if frame.timestampMs >= cutoffMs then Insert(frame, kept) else kept
  }

  lemma InsertNotBeforeFront(frame: SyncFrame, frames: seq<SyncFrame>, cutoffMs: int)
    requires Sorted(frames) && (frames == [] || !FrameLess(frames[0], frame))
    requires Sorted(NotBefore(frames, cutoffMs))
    ensures NotBefore(Insert(frame, frames), cutoffMs) == KeptInsert(frame, NotBefore(frames, cutoffMs), cutoffMs)
  {
    NotBeforeCons(frame, frames, cutoffMs);
    assert Insert(frame, frames) == [frame] + frames;
    if frame.timestampMs >= cutoffMs {
      forall f | f in frames ensures f.timestampMs >= cutoffMs {
        var j :| 0 <= j < |frames| && frames[j] == f;
      }
      NotBeforeKeepsAll(frames, cutoffMs);
    }
  }

  lemma InsertCons(frame: SyncFrame, head: SyncFrame, rest: seq<SyncFrame>)
    requires Sorted([head] + rest) && FrameLess(head, frame)
    ensures Sorted(rest) && Insert(frame, [head] + rest) == [head] + Insert(frame, rest)
  {
    assert ([head] + rest)[1..] == rest;
  }
}

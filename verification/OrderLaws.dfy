/** The orders that decide between frames, heads and rows, written out. */
module OrderLaws {
  import opened SyncModels
  import opened RelaySpec
  import TextOrder
  import FrameOrder
  import MinSpanSweep

  /** The texts agree up to a place where the first one ends or has the lower character. */
  predicate ComesBefore(a: string, b: string)
  {
    exists k :: 0 <= k <= |a| && k < |b| && a[..k] == b[..k] && (k == |a| || a[k] < b[k])
  }

  lemma {:induction false} TextByFirstDifference(a: string, b: string)
    ensures TextOrder.Less(a, b) <==> ComesBefore(a, b)
  {
    if b != [] {
      if a == [] {
        assert a[..0] == b[..0];
      } else if a[0] != b[0] {
        if a[0] < b[0] { assert a[..0] == b[..0]; }
        assert forall k | 0 < k <= |a| && k < |b| :: a[..k][0] == a[0] && b[..k][0] == b[0];
      } else {
        TextByFirstDifference(a[1..], b[1..]);
        if ComesBefore(a[1..], b[1..]) {
          var k :| && 0 <= k <= |a| - 1 && k < |b| - 1 && a[1..][..k] == b[1..][..k]
                   && (k == |a| - 1 || a[1..][k] < b[1..][k]);
          assert a[..k + 1] == [a[0]] + a[1..][..k] && b[..k + 1] == [b[0]] + b[1..][..k];
        }
        if ComesBefore(a, b) {
          var k :| 0 <= k <= |a| && k < |b| && a[..k] == b[..k] && (k == |a| || a[k] < b[k]);
          assert a[1..][..k - 1] == a[..k][1..] && b[1..][..k - 1] == b[..k][1..];
        }
      }
    }
  }

  /** Frames by time, then by key. */
  lemma {:induction false} FramesByTimeThenKey(a: SyncFrame, b: SyncFrame)
    ensures FrameOrder.FrameLess(a, b)
            <==> if a.timestampMs != b.timestampMs then a.timestampMs < b.timestampMs
                 else ComesBefore(a.bufferKey, b.bufferKey)
  {
    TextByFirstDifference(a.bufferKey, b.bufferKey);
    hide TextOrder.Less, ComesBefore;
  }

  /** Heads by time, then by key, then by device. */
  lemma {:induction false} HeadsByTimeKeyDevice(a: SyncFrame, d: string, b: SyncFrame, e: string)
    ensures MinSpanSweep.HeadLess(a, d, b, e)
            <==> if a.timestampMs != b.timestampMs then a.timestampMs < b.timestampMs
                 else if a.bufferKey != b.bufferKey then ComesBefore(a.bufferKey, b.bufferKey)
                 else ComesBefore(d, e)
  {
    TextByFirstDifference(a.bufferKey, b.bufferKey);
    TextByFirstDifference(d, e);
    TextOrder.Total(a.bufferKey, b.bufferKey);
    hide TextOrder.Less, ComesBefore;
  }

  /** Rows by synchronisation time, then by creation, then by uid. */
  lemma {:induction false} RowsByTimeCreationUid(a: Manifest, b: Manifest)
    ensures Precedes(a, b)
            <==> if a.synchronizedAtMs != b.synchronizedAtMs then a.synchronizedAtMs < b.synchronizedAtMs
                 else if a.createdAtMs != b.createdAtMs then a.createdAtMs < b.createdAtMs
                 else ComesBefore(a.uid, b.uid)
  {
    TextByFirstDifference(a.uid, b.uid);
    hide TextOrder.Less, ComesBefore;
  }

  /** Of one run the higher number is newer, of different runs the later row. */
  lemma {:induction false} NewerByNumberOrTime(a: Manifest, b: Manifest)
    ensures a.captureRunId == b.captureRunId ==> (Newer(a, b) <==> b.frameSetId < a.frameSetId)
    ensures a.captureRunId != b.captureRunId ==>
              (Newer(a, b)
               <==> if a.synchronizedAtMs != b.synchronizedAtMs then b.synchronizedAtMs < a.synchronizedAtMs
                    else if a.createdAtMs != b.createdAtMs then b.createdAtMs < a.createdAtMs
                    else ComesBefore(b.uid, a.uid))
  {
    RowsByTimeCreationUid(b, a);
    hide Precedes, ComesBefore;
  }
}

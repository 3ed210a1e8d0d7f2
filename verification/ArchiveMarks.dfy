/** Writing archive results onto frames commutes with everything the synchroniser computes,
    because matching looks at timestamps, keys and identities only. */
module ArchiveMarks {
  import opened Wrappers
  import opened SyncModels
  import opened BufferSpec
  import opened FrameOrder
  import opened MinSpanSweep
  import opened IdentityResolution
  import opened SyncSpec

  /** The archive results known so far, by frame key. */
  type Done = map<string, Archive>

  function Marked(done: Done, frame: SyncFrame): SyncFrame
  {
    if frame.bufferKey in done then frame.(archive := done[frame.bufferKey]) else frame
  }

  function MarkedSeq(done: Done, frames: seq<SyncFrame>): (r: seq<SyncFrame>)
    ensures |r| == |frames|
  {
    seq(|frames|, i requires 0 <= i < |frames| => Marked(done, frames[i]))
  }

  function MarkedSelection(done: Done, frames: Selection): (r: Selection)
    ensures r.Keys == frames.Keys
  {
    map d | d in frames :: Marked(done, frames[d])
  }

  function MarkedStock(done: Done, stock: Stock): Stock
  {
    map d | d in stock :: MarkedSeq(done, stock[d])
  }

  // ----- sequences of frames -----

  lemma MarkedAppend(done: Done, a: seq<SyncFrame>, b: seq<SyncFrame>)
    ensures MarkedSeq(done, a + b) == MarkedSeq(done, a) + MarkedSeq(done, b)
  {
  }

  lemma MarkedOne(done: Done, frame: SyncFrame)
    ensures MarkedSeq(done, [frame]) == [Marked(done, frame)]
  {
  }

  lemma MarkedNone(done: Done)
    ensures MarkedSeq(done, []) == []
  {
  }

  lemma MarkedTail(done: Done, frames: seq<SyncFrame>, n: nat)
    requires n <= |frames|
    ensures MarkedSeq(done, frames[n..]) == MarkedSeq(done, frames)[n..]
  {
  }

  lemma MarkedBounded(done: Done, frames: seq<SyncFrame>, limit: nat)
    ensures MarkedSeq(done, Bounded(frames, limit)) == Bounded(MarkedSeq(done, frames), limit)
  {
    if |frames| > limit {
      MarkedTail(done, frames, |frames| - limit);
    }
  }

  lemma {:induction false} MarkedNotBefore(done: Done, frames: seq<SyncFrame>, cutoffMs: int)
    ensures MarkedSeq(done, NotBefore(frames, cutoffMs)) == NotBefore(MarkedSeq(done, frames), cutoffMs)
  {
    if frames == [] {
      MarkedNone(done);
    } else {
      MarkedNotBefore(done, frames[1..], cutoffMs);
      MarkedTail(done, frames, 1);
      var rest := NotBefore(frames[1..], cutoffMs);
      hide MarkedSeq;
      MarkedHead(done, frames);
      MarkedAppend(done, [frames[0]], rest);
      MarkedOne(done, frames[0]);
    }
  }

  lemma MarkedHead(done: Done, frames: seq<SyncFrame>)
    requires frames != []
    ensures MarkedSeq(done, frames)[0] == Marked(done, frames[0])
  {
  }

  lemma {:induction false} MarkedSuperseded(done: Done, frames: seq<SyncFrame>, chosen: SyncFrame)
    ensures SupersededCount(MarkedSeq(done, frames), Marked(done, chosen)) == SupersededCount(frames, chosen)
  {
    if frames != [] {
      MarkedSuperseded(done, frames[1..], chosen);
      MarkedTail(done, frames, 1);
      MarkedHead(done, frames);
    }
  }

  lemma {:induction false} MarkedInsert(done: Done, frame: SyncFrame, frames: seq<SyncFrame>)
    requires Sorted(frames)
    ensures Sorted(MarkedSeq(done, frames))
    ensures MarkedSeq(done, Insert(frame, frames)) == Insert(Marked(done, frame), MarkedSeq(done, frames))
  {
    MarkedSorted(done, frames);
    MarkedOne(done, frame);
    if frames == [] {
      MarkedNone(done);
    } else {
      MarkedHead(done, frames);
      MarkedTail(done, frames, 1);
      if !FrameLess(frames[0], frame) {
        MarkedAppend(done, [frame], frames);
      } else {
        MarkedInsert(done, frame, frames[1..]);
        var rest := Insert(frame, frames[1..]);
        hide MarkedSeq;
        MarkedAppend(done, [frames[0]], rest);
        MarkedOne(done, frames[0]);
      }
    }
  }

  lemma MarkedSorted(done: Done, frames: seq<SyncFrame>)
    requires Sorted(frames)
    ensures Sorted(MarkedSeq(done, frames))
  {
    forall i, j | 0 <= i < j < |frames| ensures !FrameLess(Marked(done, frames[j]), Marked(done, frames[i])) {
      assert !FrameLess(frames[j], frames[i]);
    }
  }

  lemma {:induction false} MarkedSort(done: Done, frames: seq<SyncFrame>)
    ensures MarkedSeq(done, SortFrames(frames)) == SortFrames(MarkedSeq(done, frames))
  {
    if frames == [] {
      MarkedNone(done);
    } else {
      MarkedSort(done, frames[1..]);
      MarkedTail(done, frames, 1);
      MarkedHead(done, frames);
      hide MarkedSeq, Insert;
      MarkedInsert(done, frames[0], SortFrames(frames[1..]));
    }
  }

  // ----- the sweep -----

  lemma MarkedSpan(done: Done, frames: Selection)
    requires frames != map[]
    ensures MarkedSelection(done, frames) != map[]
    ensures Earliest(MarkedSelection(done, frames)) == Earliest(frames)
    ensures Latest(MarkedSelection(done, frames)) == Latest(frames)
    ensures Span(MarkedSelection(done, frames)) == Span(frames)
  {
    var first := EarliestOf(frames);
    var last := LatestOf(frames);
    assert first in MarkedSelection(done, frames);
    SpanIs(MarkedSelection(done, frames), first, last);
  }

  lemma MarkedLeast(done: Done, heads: Selection)
    requires heads != map[]
    ensures MarkedSelection(done, heads) != map[]
    ensures LeastHead(MarkedSelection(done, heads)) == LeastHead(heads)
  {
    var marked, d := MarkedSelection(done, heads), LeastHead(heads);
    assert d in marked;
    LeastHeadIsLeast(heads);
    LeastHeadIsLeast(marked);
    hide LeastHead;
    forall e | e in marked && e != d ensures HeadLess(marked[d], d, marked[e], e) {
      assert HeadLess(heads[d], d, heads[e], e);
    }
    LeastHeadUnique(marked, d, LeastHead(marked));
  }

  lemma MarkedStocked(done: Done, stock: Stock)
    ensures Stocked(MarkedStock(done, stock)) <==> Stocked(stock)
  {
    if stock != map[] {
      var d :| d in stock;
      assert d in MarkedStock(done, stock);
    } else {
      assert MarkedStock(done, stock) == map[];
    }
    forall d | d in stock ensures MarkedStock(done, stock)[d] == [] <==> stock[d] == [] {
    }
  }

  lemma MarkedHeads(done: Done, stock: Stock)
    requires Stocked(stock)
    ensures Stocked(MarkedStock(done, stock))
    ensures Heads(MarkedStock(done, stock)) == MarkedSelection(done, Heads(stock))
  {
    MarkedStocked(done, stock);
    var a, b := Heads(MarkedStock(done, stock)), MarkedSelection(done, Heads(stock));
    assert a.Keys == b.Keys;
    forall d | d in a ensures a[d] == b[d] {
      MarkedHead(done, stock[d]);
    }
  }

  lemma MarkedPop(done: Done, stock: Stock, d: string)
    requires d in stock && stock[d] != []
    ensures MarkedStock(done, Pop(stock, d)) == Pop(MarkedStock(done, stock), d)
  {
    var a, b := MarkedStock(done, Pop(stock, d)), Pop(MarkedStock(done, stock), d);
    assert a.Keys == b.Keys;
    forall e | e in a ensures a[e] == b[e] {
      if e == d { MarkedTail(done, stock[d], 1); }
    }
  }

  lemma MarkedBetter(done: Done, first: Selection, later: Selection)
    requires first != map[] && later != map[]
    ensures MarkedSelection(done, first) != map[] && MarkedSelection(done, later) != map[]
    ensures Better(MarkedSelection(done, first), MarkedSelection(done, later))
            == MarkedSelection(done, Better(first, later))
  {
    MarkedSpan(done, first);
    MarkedSpan(done, later);
  }

  lemma {:induction false} MarkedSweep(done: Done, stock: Stock)
    requires Stocked(stock)
    ensures Stocked(MarkedStock(done, stock))
    ensures Sweep(MarkedStock(done, stock)) == MarkedSelection(done, Sweep(stock))
    decreases Places(stock)
  {
    var d := LeastHead(Heads(stock));
    MarkedHeads(done, stock);
    MarkedLeast(done, Heads(stock));
    SweepStep(stock, d);
    SweepStep(MarkedStock(done, stock), d);
    assert |MarkedStock(done, stock)[d]| == |stock[d]|;
    hide Sweep, Heads, LeastHead, MarkedStock, MarkedSelection, MarkedSeq, Better, Stocked;
    if |stock[d]| > 1 {
      PopShrinks(stock, d);
      MarkedPop(done, stock, d);
      MarkedSweep(done, Pop(stock, d));
      MarkedBetter(done, Heads(stock), Sweep(Pop(stock, d)));
    }
  }

  function MarkedOption(done: Done, best: Option<Selection>): Option<Selection>
  {
    if best.Some? then Some(MarkedSelection(done, best.value)) else None
  }

  lemma MarkedCandidate(done: Done, stock: Stock, windowMs: int)
    ensures Candidate(MarkedStock(done, stock), windowMs) == MarkedOption(done, Candidate(stock, windowMs))
  {
    MarkedStocked(done, stock);
    if Stocked(stock) {
      MarkedSweep(done, stock);
      MarkedSpan(done, Sweep(stock));
    }
  }

  // ----- identity and manifest -----

  lemma MarkedMembers(done: Done, cameras: seq<string>, frames: Selection)
    requires forall d | d in cameras :: d in frames
    ensures Members(cameras, MarkedSelection(done, frames)) == MarkedSeq(done, Members(cameras, frames))
  {
  }

  lemma MarkedScopes(done: Done, a: seq<SyncFrame>)
    ensures var b := MarkedSeq(done, a);
            && OneGroup(a) == OneGroup(b) && CamerasDiffer(a) == CamerasDiffer(b) && Scoped(a) == Scoped(b)
            && AnyClaim(a) == AnyClaim(b) && AllClaim(a) == AllClaim(b) && OneParticipant(a) == OneParticipant(b)
  {
    var b := MarkedSeq(done, a);
    assert forall i | 0 <= i < |a| :: b[i].scope == a[i].scope;
  }

  lemma MarkedKeys(done: Done, a: seq<SyncFrame>)
    ensures var b := MarkedSeq(done, a); ConfigKey(b) == ConfigKey(a) && SourceSessions(b) == SourceSessions(a)
  {
    var b := MarkedSeq(done, a);
    assert forall i | 0 <= i < |a| ::
             b[i].source == a[i].source && b[i].captureConfigDigest == a[i].captureConfigDigest;
    assert seq(|a|, i requires 0 <= i < |a| =>
      (OrEmpty(a[i].source.cameraStreamId), OrEmpty(a[i].captureConfigDigest)))
        == seq(|b|, i requires 0 <= i < |b| =>
      (OrEmpty(b[i].source.cameraStreamId), OrEmpty(b[i].captureConfigDigest)));
    assert seq(|a|, i requires 0 <= i < |a| =>
      (OrEmpty(a[i].source.cameraStreamId), OrEmpty(a[i].source.sessionId)))
        == seq(|b|, i requires 0 <= i < |b| =>
      (OrEmpty(b[i].source.cameraStreamId), OrEmpty(b[i].source.sessionId)));
  }

  lemma MarkedComplete(done: Done, a: seq<SyncFrame>)
    ensures (forall i | 0 <= i < |a| :: MarkedSeq(done, a)[i].IdentityComplete())
            == (forall i | 0 <= i < |a| :: a[i].IdentityComplete())
  {
    forall i | 0 <= i < |a| ensures MarkedSeq(done, a)[i].IdentityComplete() == a[i].IdentityComplete() {
    }
  }

  lemma MarkedAuthorization(done: Done, a: seq<SyncFrame>)
    requires a != []
    ensures MarkedSeq(done, a) != [] && AuthorizationOf(MarkedSeq(done, a)) == AuthorizationOf(a)
  {
    MarkedScopes(done, a);
    assert MarkedSeq(done, a)[0].scope == a[0].scope;
    hide OneGroup, CamerasDiffer, Scoped, AnyClaim, AllClaim, OneParticipant, MarkedSeq;
  }

  /** Archive results play no part in the capture identity. */
  lemma {:induction false} MarkedResolve(done: Done, members: seq<SyncFrame>)
    requires members != []
    ensures MarkedSeq(done, members) != []
    ensures Resolve(MarkedSeq(done, members)) == Resolve(members)
  {
    MarkedScopes(done, members);
    MarkedKeys(done, members);
    MarkedComplete(done, members);
    MarkedAuthorization(done, members);
    hide OneGroup, CamerasDiffer, Scoped, AnyClaim, AllClaim, ConfigKey, SourceSessions, OneParticipant;
    hide AuthorizationOf, MarkedSeq;
    hide SyncFrame.IdentityComplete;
  }

  /** Nor in the manifest, so the digest and the uid of a set never change. */
  lemma {:induction false} MarkedManifest(done: Done, identity: CaptureIdentity, frames: Selection, windowMs: int)
    requires frames != map[]
    ensures MarkedSelection(done, frames) != map[]
    ensures ManifestOf(identity, MarkedSelection(done, frames), windowMs) == ManifestOf(identity, frames, windowMs)
  {
    MarkedSpan(done, frames);
    hide Earliest, Latest, Span;
    var marked := MarkedSelection(done, frames);
    var a, b := map d | d in marked :: ManifestMemberOf(marked[d]), map d | d in frames :: ManifestMemberOf(frames[d]);
    forall d | d in frames ensures a[d] == b[d] {
    }
    assert a == b;
  }
}

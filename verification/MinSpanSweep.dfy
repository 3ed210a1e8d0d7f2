/** The k-way sweep that looks for the selection, one frame per camera, of least span. */
module MinSpanSweep {
  import opened Wrappers
  import opened SyncModels
  import opened BufferSpec
  import opened FrameOrder

  // ----- spans -----

  ghost function EarliestIn(frames: Selection, devices: set<string>): int
    requires devices != {} && devices <= frames.Keys
  {
    var d :| d in devices;
    if devices == {d} then frames[d].timestampMs
    else
      assert devices == {d} + (devices - {d});
      var rest := EarliestIn(frames, devices - {d});
      if frames[d].timestampMs <= rest then frames[d].timestampMs else rest
  }

  ghost function LatestIn(frames: Selection, devices: set<string>): int
    requires devices != {} && devices <= frames.Keys
  {
    var d :| d in devices;
    if devices == {d} then frames[d].timestampMs
    else
      assert devices == {d} + (devices - {d});
      var rest := LatestIn(frames, devices - {d});
      if frames[d].timestampMs >= rest then frames[d].timestampMs else rest
  }

  ghost function Earliest(frames: Selection): int
    requires frames != map[]
  {
    EarliestIn(frames, frames.Keys)
  }

  ghost function Latest(frames: Selection): int
    requires frames != map[]
  {
    LatestIn(frames, frames.Keys)
  }

  lemma {:induction false} EarliestAmong(frames: Selection, devices: set<string>) returns (d: string)
    requires devices != {} && devices <= frames.Keys
    ensures d in devices && frames[d].timestampMs == EarliestIn(frames, devices)
    ensures forall e | e in devices :: frames[d].timestampMs <= frames[e].timestampMs
  {
    d :| d in devices && (devices == {d} || EarliestIn(frames, devices) ==
      var rest := EarliestIn(frames, devices - {d});
      if frames[d].timestampMs <= rest then frames[d].timestampMs else rest);
    if devices != {d} {
      var rest := EarliestAmong(frames, devices - {d});
      d := if frames[d].timestampMs <= frames[rest].timestampMs then d else rest;
    }
  }

  lemma {:induction false} LatestAmong(frames: Selection, devices: set<string>) returns (d: string)
    requires devices != {} && devices <= frames.Keys
    ensures d in devices && frames[d].timestampMs == LatestIn(frames, devices)
    ensures forall e | e in devices :: frames[e].timestampMs <= frames[d].timestampMs
  {
    d :| d in devices && (devices == {d} || LatestIn(frames, devices) ==
      var rest := LatestIn(frames, devices - {d});
      if frames[d].timestampMs >= rest then frames[d].timestampMs else rest);
    if devices != {d} {
      var rest := LatestAmong(frames, devices - {d});
      d := if frames[d].timestampMs >= frames[rest].timestampMs then d else rest;
    }
  }

  lemma EarliestOf(frames: Selection) returns (d: string)
    requires frames != map[]
    ensures d in frames && frames[d].timestampMs == Earliest(frames)
    ensures forall e | e in frames :: Earliest(frames) <= frames[e].timestampMs
  {
    d := EarliestAmong(frames, frames.Keys);
  }

  lemma LatestOf(frames: Selection) returns (d: string)
    requires frames != map[]
    ensures d in frames && frames[d].timestampMs == Latest(frames)
    ensures forall e | e in frames :: frames[e].timestampMs <= Latest(frames)
  {
    d := LatestAmong(frames, frames.Keys);
  }

  ghost function Span(frames: Selection): (span: int)
    requires frames != map[]
    ensures span >= 0
  {
    SpanPositive(frames);
    Latest(frames) - Earliest(frames)
  }

  lemma SpanPositive(frames: Selection)
    requires frames != map[]
    ensures Latest(frames) >= Earliest(frames)
  {
    var first := EarliestOf(frames);
    var last := LatestOf(frames);
  }

  /** A span is settled by a first and a last frame. */
  lemma SpanIs(frames: Selection, first: string, last: string)
    requires first in frames && last in frames
    requires forall d | d in frames :: frames[first].timestampMs <= frames[d].timestampMs <= frames[last].timestampMs
    ensures Earliest(frames) == frames[first].timestampMs && Latest(frames) == frames[last].timestampMs
  {
    var e := EarliestOf(frames);
    var l := LatestOf(frames);
  }

  // ----- candidates -----

  /** What each camera still has to offer. */
  type Stock = map<string, seq<SyncFrame>>

  /** A choice of one frame per camera. */
  ghost predicate IsSelection(stock: Stock, pick: Selection)
  {
    && pick.Keys == stock.Keys
    && forall d | d in stock :: pick[d] in stock[d]
  }

  ghost predicate Stocked(stock: Stock)
  {
    stock != map[] && forall d | d in stock :: stock[d] != []
  }

  ghost predicate InOrder(stock: Stock)
  {
    forall d | d in stock :: Ascending(stock[d])
  }

  // ----- popping the least head -----

  predicate HeadLess(a: SyncFrame, deviceA: string, b: SyncFrame, deviceB: string)
  {
    || FrameLess(a, b)
    || (&& a.timestampMs == b.timestampMs
        && a.bufferKey == b.bufferKey
        && TextOrder.Less(deviceA, deviceB))
  }

  lemma HeadTotal(a: SyncFrame, deviceA: string, b: SyncFrame, deviceB: string)
    ensures deviceA == deviceB || HeadLess(a, deviceA, b, deviceB) || HeadLess(b, deviceB, a, deviceA)
    ensures !(HeadLess(a, deviceA, b, deviceB) && HeadLess(b, deviceB, a, deviceA))
    ensures a == b && deviceA == deviceB ==> !HeadLess(a, deviceA, b, deviceB)
  {
    TextOrder.Total(a.bufferKey, b.bufferKey);
    TextOrder.Total(deviceA, deviceB);
  }

  lemma HeadTransitive(a: SyncFrame, da: string, b: SyncFrame, db: string, c: SyncFrame, dc: string)
    requires HeadLess(a, da, b, db) && HeadLess(b, db, c, dc)
    ensures HeadLess(a, da, c, dc)
  {
    if TextOrder.Less(a.bufferKey, b.bufferKey) && TextOrder.Less(b.bufferKey, c.bufferKey) {
      TextOrder.Transitive(a.bufferKey, b.bufferKey, c.bufferKey);
    }
    if TextOrder.Less(da, db) && TextOrder.Less(db, dc) {
      TextOrder.Transitive(da, db, dc);
    }
  }

  ghost predicate IsLeastHead(heads: Selection, d: string)
  {
    d in heads && forall e | e in heads && e != d :: HeadLess(heads[d], d, heads[e], e)
  }

  ghost function LeastHeadIn(heads: Selection, devices: set<string>): (d: string)
    requires devices != {} && devices <= heads.Keys
    ensures d in devices
  {
    var d :| d in devices;
    if devices == {d} then d
    else
      assert devices == {d} + (devices - {d});
      var rest := LeastHeadIn(heads, devices - {d});
      if HeadLess(heads[d], d, heads[rest], rest) then d else rest
  }

  lemma {:induction false} LeastHeadAmong(heads: Selection, devices: set<string>)
    requires devices != {} && devices <= heads.Keys
    ensures var d := LeastHeadIn(heads, devices);
            d in devices && forall e | e in devices && e != d :: HeadLess(heads[d], d, heads[e], e)
  {
    var d :| d in devices && (devices == {d} || LeastHeadIn(heads, devices) ==
      var rest := LeastHeadIn(heads, devices - {d});
      if HeadLess(heads[d], d, heads[rest], rest) then d else rest);
    if devices != {d} {
      LeastHeadAmong(heads, devices - {d});
      var rest := LeastHeadIn(heads, devices - {d});
      HeadTotal(heads[d], d, heads[rest], rest);
      if HeadLess(heads[d], d, heads[rest], rest) {
        forall e | e in devices && e != d ensures HeadLess(heads[d], d, heads[e], e) {
          if e != rest { HeadTransitive(heads[d], d, heads[rest], rest, heads[e], e); }
        }
      }
    }
  }

  /** The device whose head is popped: devices differ, so there is exactly one. */
  ghost function LeastHead(heads: Selection): (d: string)
    requires heads != map[]
    ensures d in heads
  {
    LeastHeadIn(heads, heads.Keys)
  }

  lemma LeastHeadIsLeast(heads: Selection)
    requires heads != map[]
    ensures IsLeastHead(heads, LeastHead(heads))
    ensures heads[LeastHead(heads)].timestampMs == Earliest(heads)
  {
    LeastHeadAmong(heads, heads.Keys);
    var first := EarliestOf(heads);
  }

  lemma LeastHeadUnique(heads: Selection, d: string, e: string)
    requires IsLeastHead(heads, d) && IsLeastHead(heads, e)
    ensures d == e
  {
    HeadTotal(heads[d], d, heads[e], e);
  }

  // ----- the sweep as a recursion -----

  ghost function Heads(stock: Stock): (heads: Selection)
    requires Stocked(stock)
    ensures heads.Keys == stock.Keys && heads != map[]
  {
    var d :| d in stock;
    var heads := map d | d in stock :: stock[d][0];
    assert d in heads;
    heads
  }

  lemma HeadsSelect(stock: Stock)
    requires Stocked(stock)
    ensures IsSelection(stock, Heads(stock))
  {
  }

  /** The stock after the first frame of one camera is gone. */
  function Pop(stock: Stock, d: string): Stock
    requires d in stock && stock[d] != []
  {
    stock[d := stock[d][1..]]
  }

  ghost function Places(stock: Stock): set<(string, int)>
  {
    set d, i | d in stock && 0 <= i < |stock[d]| :: (d, i)
  }

  lemma PopShrinks(stock: Stock, d: string)
    requires d in stock && stock[d] != []
    ensures Places(Pop(stock, d)) < Places(stock)
  {
    var last := (d, |stock[d]| - 1);
    assert last in Places(stock) && last !in Places(Pop(stock, d));
  }

  lemma SelectionFromPopped(stock: Stock, d: string, pick: Selection)
    requires d in stock && stock[d] != [] && IsSelection(Pop(stock, d), pick)
    ensures IsSelection(stock, pick)
  {
    forall e | e in stock ensures pick[e] in stock[e] {
      assert pick[e] in Pop(stock, d)[e];
    }
  }

  ghost function Better(first: Selection, later: Selection): Selection
    requires first != map[] && later != map[]
  {
    if Span(later) < Span(first) then later else first
  }

  /** The first selection of least span met while the least head is popped
      until its camera has no other frame. */
  ghost function Sweep(stock: Stock): (best: Selection)
    requires Stocked(stock)
    ensures best != map[]
    decreases Places(stock)
  {
    var heads := Heads(stock);
    var d := LeastHead(heads);
    if |stock[d]| == 1 then heads
    else
      PopShrinks(stock, d);
      Better(heads, Sweep(Pop(stock, d)))
  }

  lemma {:induction false} SweepSelects(stock: Stock)
    requires Stocked(stock)
    ensures IsSelection(stock, Sweep(stock))
    decreases Places(stock)
  {
    var d := LeastHead(Heads(stock));
    HeadsSelect(stock);
    if |stock[d]| > 1 {
      PopShrinks(stock, d);
      SweepSelects(Pop(stock, d));
      SelectionFromPopped(stock, d, Sweep(Pop(stock, d)));
    }
  }

  // ----- the sweep is optimal -----

  /** Least span first, earliest start among equals. */
  ghost predicate NoWorse(a: Selection, b: Selection)
    requires a != map[] && b != map[]
  {
    Span(a) < Span(b) || (Span(a) == Span(b) && Earliest(a) <= Earliest(b))
  }

  lemma HeadsComeFirst(stock: Stock, pick: Selection)
    requires Stocked(stock) && InOrder(stock) && IsSelection(stock, pick) && pick != map[]
    ensures Earliest(Heads(stock)) <= Earliest(pick)
    ensures Latest(Heads(stock)) <= Latest(pick)
  {
    var heads := Heads(stock);
    forall d | d in stock ensures heads[d].timestampMs <= pick[d].timestampMs {
      var i :| 0 <= i < |stock[d]| && stock[d][i] == pick[d];
    }
    var first := EarliestOf(pick);
    var last := LatestOf(heads);
    var headFirst := EarliestOf(heads);
    var pickLast := LatestOf(pick);
    assert heads[first].timestampMs <= pick[first].timestampMs;
    assert heads[last].timestampMs <= pick[last].timestampMs;
  }

  lemma PopInOrder(stock: Stock, d: string)
    requires InOrder(stock) && d in stock && |stock[d]| > 1
    ensures InOrder(Pop(stock, d))
  {
    var popped := Pop(stock, d);
    forall e | e in popped ensures Ascending(popped[e]) {
      if e == d {
        assert forall i | 0 <= i < |popped[d]| :: popped[d][i] == stock[d][i + 1];
      }
    }
  }

  lemma BetterNoWorse(a: Selection, b: Selection, pick: Selection)
    requires a != map[] && b != map[] && pick != map[]
    requires NoWorse(a, pick) || (NoWorse(b, pick) && Earliest(a) <= Earliest(pick))
    ensures NoWorse(Better(a, b), pick)
  {
  }

  lemma SweepStep(stock: Stock, d: string)
    requires Stocked(stock) && d == LeastHead(Heads(stock))
    ensures |stock[d]| == 1 ==> Sweep(stock) == Heads(stock)
    ensures |stock[d]| > 1 ==>
      && Stocked(Pop(stock, d))
      && Places(Pop(stock, d)) < Places(stock)
      && Sweep(stock) == Better(Heads(stock), Sweep(Pop(stock, d)))
  {
    if |stock[d]| > 1 {
      PopShrinks(stock, d);
      assert d in Pop(stock, d);
    }
  }

  /** Once the least head is passed over, the rest of the choice is still in stock. */
  lemma SelectionAfterPop(stock: Stock, d: string, pick: Selection)
    requires IsSelection(stock, pick) && d in stock && stock[d] != [] && pick[d] != stock[d][0]
    ensures IsSelection(Pop(stock, d), pick) && |stock[d]| > 1
  {
    assert stock[d] == [stock[d][0]] + stock[d][1..];
    assert pick[d] in stock[d][1..];
    forall e | e in Pop(stock, d) ensures pick[e] in Pop(stock, d)[e] {
    }
  }

  /** No selection beats the one that the sweep returns. */
  lemma {:induction false} SweepIsOptimal(stock: Stock, pick: Selection)
    requires Stocked(stock) && InOrder(stock) && IsSelection(stock, pick) && pick != map[]
    ensures NoWorse(Sweep(stock), pick)
    decreases Places(stock)
  {
    var heads := Heads(stock);
    var d := LeastHead(heads);
    LeastHeadIsLeast(heads);
    SweepStep(stock, d);
    HeadsComeFirst(stock, pick);
    if pick[d] == stock[d][0] {
      var first := EarliestOf(pick);
      assert NoWorse(heads, pick);
    } else {
      SelectionAfterPop(stock, d, pick);
      PopInOrder(stock, d);
      SweepIsOptimal(Pop(stock, d), pick);
    }
    if |stock[d]| > 1 {
      BetterNoWorse(heads, Sweep(Pop(stock, d)), pick);
    }
  }

  // ----- the candidate inside the window -----

  ghost function Candidate(stock: Stock, windowMs: int): Option<Selection>
  {
    if Stocked(stock) && Span(Sweep(stock)) <= windowMs then Some(Sweep(stock)) else None
  }

  /** A candidate is found exactly when some selection fits the window, although the
      sweep stops as soon as one camera has run out. */
  lemma {:induction false} CandidateIffSelectionFits(stock: Stock, windowMs: int)
    requires stock != map[] && InOrder(stock)
    ensures Candidate(stock, windowMs).Some?
            <==> exists pick | pick != map[] && IsSelection(stock, pick) :: Span(pick) <= windowMs
  {
    if pick: Selection :| pick != map[] && IsSelection(stock, pick) && Span(pick) <= windowMs {
      assert Stocked(stock);
      SweepIsOptimal(stock, pick);
    }
    if Stocked(stock) {
      SweepSelects(stock);
    }
  }

  function Kept(stock: Stock, cutoffMs: int): Stock
  {
    map d | d in stock :: NotBefore(stock[d], cutoffMs)
  }

  /** No selection that starts before the cutoff fits the window. */
  ghost predicate StaleNeverFits(stock: Stock, cutoffMs: int, windowMs: int)
  {
    forall pick | pick != map[] && IsSelection(stock, pick) && Earliest(pick) < cutoffMs :: Span(pick) > windowMs
  }

  lemma StaleNeverFitsAfterPop(stock: Stock, d: string, cutoffMs: int, windowMs: int)
    requires StaleNeverFits(stock, cutoffMs, windowMs) && d in stock && stock[d] != []
    ensures StaleNeverFits(Pop(stock, d), cutoffMs, windowMs)
  {
    forall pick | pick != map[] && IsSelection(Pop(stock, d), pick) && Earliest(pick) < cutoffMs
      ensures Span(pick) > windowMs
    {
      SelectionFromPopped(stock, d, pick);
    }
  }

  /** Frames that fit no window can be dropped without changing the candidate. */
  lemma {:induction false} CandidateIgnoresStale(stock: Stock, cutoffMs: int, windowMs: int)
    requires Stocked(stock) && InOrder(stock) && StaleNeverFits(stock, cutoffMs, windowMs)
    ensures Candidate(stock, windowMs) == Candidate(Kept(stock, cutoffMs), windowMs)
    decreases Places(stock)
  {
    var heads := Heads(stock);
    var d := LeastHead(heads);
    LeastHeadIsLeast(heads);
    if Earliest(heads) >= cutoffMs {
      NothingStale(stock, cutoffMs);
    } else {
      HeadsSelect(stock);
      assert Span(heads) > windowMs;
      CandidateAfterPop(stock, d, windowMs);
      if |stock[d]| == 1 {
        assert Kept(stock, cutoffMs)[d] == [];
      } else {
        KeptAfterPop(stock, d, cutoffMs);
        StaleNeverFitsAfterPop(stock, d, cutoffMs, windowMs);
        CandidateIgnoresStale(Pop(stock, d), cutoffMs, windowMs);
      }
    }
  }

  lemma CandidateAfterPop(stock: Stock, d: string, windowMs: int)
    requires Stocked(stock) && InOrder(stock) && d == LeastHead(Heads(stock)) && Span(Heads(stock)) > windowMs
    ensures |stock[d]| == 1 ==> Candidate(stock, windowMs) == None
    ensures |stock[d]| > 1 ==>
      && Stocked(Pop(stock, d)) && InOrder(Pop(stock, d)) && Places(Pop(stock, d)) < Places(stock)
      && Candidate(stock, windowMs) == Candidate(Pop(stock, d), windowMs)
  {
    SweepStep(stock, d);
    if |stock[d]| > 1 {
      PopInOrder(stock, d);
    }
  }

  lemma KeptAfterPop(stock: Stock, d: string, cutoffMs: int)
    requires d in stock && stock[d] != [] && stock[d][0].timestampMs < cutoffMs
    ensures Kept(Pop(stock, d), cutoffMs) == Kept(stock, cutoffMs)
  {
  }

  lemma NothingStale(stock: Stock, cutoffMs: int)
    requires Stocked(stock) && InOrder(stock) && Earliest(Heads(stock)) >= cutoffMs
    ensures Kept(stock, cutoffMs) == stock
  {
    var first := EarliestOf(Heads(stock));
    forall d | d in stock ensures NotBefore(stock[d], cutoffMs) == stock[d] {
      assert Heads(stock)[d].timestampMs >= cutoffMs;
      forall f | f in stock[d] ensures f.timestampMs >= cutoffMs {
        var i :| 0 <= i < |stock[d]| && stock[d][i] == f;
      }
      NotBeforeKeepsAll(stock[d], cutoffMs);
    }
  }

  // ----- the sweep as the collector runs it -----

  datatype HeapEntry = HeapEntry(index: nat, frame: SyncFrame)

  /** A heap of (timestamp, key, device, index, frame) entries, one per camera. */
  type Heap = map<string, HeapEntry>

  /** Every camera's entry is the frame its index points at. */
  ghost predicate HeapHolds(heap: Heap, lists: Stock)
  {
    && heap.Keys == lists.Keys
    && forall d | d in lists :: heap[d].index < |lists[d]| && heap[d].frame == lists[d][heap[d].index]
  }

  /** What the sweep has not passed over yet. */
  ghost function Remaining(lists: Stock, heap: Heap): Stock
    requires HeapHolds(heap, lists)
  {
    map d | d in lists :: lists[d][heap[d].index..]
  }

  ghost function Tops(heap: Heap): Selection
  {
    map d | d in heap :: heap[d].frame
  }

  lemma RemainingStocked(lists: Stock, heap: Heap)
    requires lists != map[] && HeapHolds(heap, lists)
    ensures Stocked(Remaining(lists, heap))
    ensures Heads(Remaining(lists, heap)) == Tops(heap)
  {
    var some :| some in lists;
    assert some in Remaining(lists, heap);
  }

  lemma RemainingAfter(lists: Stock, heap: Heap, d: string)
    requires HeapHolds(heap, lists) && d in lists && heap[d].index + 1 < |lists[d]|
    ensures var pushed := heap[d := HeapEntry(heap[d].index + 1, lists[d][heap[d].index + 1])];
            HeapHolds(pushed, lists) && Remaining(lists, pushed) == Pop(Remaining(lists, heap), d)
  {
    var pushed := heap[d := HeapEntry(heap[d].index + 1, lists[d][heap[d].index + 1])];
    forall e | e in lists ensures Remaining(lists, pushed)[e] == Pop(Remaining(lists, heap), d)[e] {
      if e == d {
        assert lists[d][heap[d].index..][1..] == lists[d][heap[d].index + 1..];
      }
    }
  }

  /** The device whose entry is least; devices differ, so there is exactly one. */
  method HeapLeast(heap: Heap) returns (d: string)
    requires heap != map[]
    ensures d in heap
    ensures var frames: Selection := Tops(heap);
            frames != map[] && d == LeastHead(frames) && heap[d].frame.timestampMs == Earliest(frames)
  {
    ghost var frames: Selection := Tops(heap);
    ghost var some :| some in heap;
    assert some in frames;
    ghost var least := LeastHead(frames);
    LeastHeadIsLeast(frames);
    forall e | e in heap && e != least ensures HeadLess(heap[least].frame, least, heap[e].frame, e) {
      assert e in frames && frames[e] == heap[e].frame;
    }
    d :| d in heap && forall e | e in heap && e != d :: HeadLess(heap[d].frame, d, heap[e].frame, e);
    LeastHeadUnique(frames, d, least);
  }

  lemma BetterAssociates(a: Selection, b: Selection, c: Selection)
    requires a != map[] && b != map[] && c != map[]
    ensures Better(a, Better(b, c)) == Better(Better(a, b), c)
  {
  }

  ghost function BetterOf(best: Option<Selection>, later: Selection): Selection
    requires best.Some? ==> best.value != map[]
    requires later != map[]
  {
    if best.Some? then Better(best.value, later) else later
  }

  lemma LatestAfter(frames: Selection, d: string, next: SyncFrame)
    requires frames != map[] && d in frames && frames[d].timestampMs <= next.timestampMs
    ensures frames[d := next] != map[]
    ensures Latest(frames[d := next]) == if Latest(frames) < next.timestampMs then next.timestampMs else Latest(frames)
  {
    var moved := frames[d := next];
    assert d in moved && moved[d] == next;
    var last := LatestOf(frames);
    var late := LatestOf(moved);
    assert moved[last].timestampMs >= frames[last].timestampMs;
    assert late != d ==> frames[late] == moved[late];
  }

  /** What popping the least head does to the best selection so far. */
  lemma BestAtEnd(stock: Stock, d: string, found: Option<Selection>)
    requires Stocked(stock) && d == LeastHead(Heads(stock)) && |stock[d]| == 1
    requires found.Some? ==> found.value != map[]
    ensures BetterOf(found, Sweep(stock)) == BetterOf(found, Heads(stock))
  {
    SweepStep(stock, d);
  }

  lemma BestGoesOn(stock: Stock, d: string, found: Option<Selection>)
    requires Stocked(stock) && d == LeastHead(Heads(stock)) && |stock[d]| > 1
    requires found.Some? ==> found.value != map[]
    ensures Stocked(Pop(stock, d)) && Places(Pop(stock, d)) < Places(stock)
    ensures BetterOf(found, Sweep(stock)) == Better(BetterOf(found, Heads(stock)), Sweep(Pop(stock, d)))
  {
    SweepStep(stock, d);
    if found.Some? {
      BetterAssociates(found.value, Heads(stock), Sweep(Pop(stock, d)));
    }
  }

  /** What the loop knows: the heap tops are the heads of what remains, and the best
      selection so far, improved by what remains, is the best of all. */
  ghost predicate Sweeping(lists: Stock, heap: Heap, current: Selection, currentMaxMs: int,
                           found: Option<Selection>, bestSpanMs: int)
  {
    && HeapHolds(heap, lists) && Stocked(Remaining(lists, heap))
    && current == Tops(heap) == Heads(Remaining(lists, heap))
    && currentMaxMs == Latest(current)
    && (found.Some? ==> found.value != map[] && bestSpanMs == Span(found.value))
    && BetterOf(found, Sweep(Remaining(lists, heap))) == Sweep(lists)
  }

  /** Push the first frame of every camera. */
  method PushHeads(lists: Stock) returns (heap: Heap, current: Selection, currentMaxMs: int)
    requires Stocked(lists) && InOrder(lists)
    ensures HeapHolds(heap, lists) && Sweeping(lists, heap, current, currentMaxMs, None, 0)
  {
    var first :| first in lists;
    heap, current, currentMaxMs := map[], map[], lists[first][0].timestampMs;
    ghost var last := first;
    var pending := lists.Keys;
    while pending != {}
      invariant pending <= lists.Keys
      invariant heap.Keys == current.Keys == lists.Keys - pending
      invariant forall d | d in heap :: heap[d] == HeapEntry(0, lists[d][0]) && current[d] == lists[d][0]
      invariant last in lists && lists[last][0].timestampMs == currentMaxMs
      invariant forall d | d in current :: current[d].timestampMs <= currentMaxMs
      decreases pending
    {
      var d :| d in pending;
      var frame := lists[d][0];
      current := current[d := frame];
      if frame.timestampMs > currentMaxMs {
        currentMaxMs := frame.timestampMs;
        last := d;
      }
      heap := heap[d := HeapEntry(0, frame)];
      pending := pending - {d};
    }
    assert current == Heads(lists) == Tops(heap);
    assert Remaining(lists, heap) == lists;
    assert current[last].timestampMs == currentMaxMs;
    last := LatestOf(current);
  }

  lemma TopsAfter(heap: Heap, d: string, entry: HeapEntry)
    ensures Tops(heap[d := entry]) == Tops(heap)[d := entry.frame]
  {
  }

  lemma HeapFacts(
      lists: Stock, heap: Heap, current: Selection, currentMaxMs: int, found: Option<Selection>, bestSpanMs: int)
    requires Stocked(lists) && Sweeping(lists, heap, current, currentMaxMs, found, bestSpanMs)
    ensures heap != map[] && heap.Keys == lists.Keys && current == Tops(heap) && current != map[]
    ensures HeapHolds(heap, lists) && forall d | d in heap :: heap[d].index < |lists[d]|
    ensures found.Some? ==> found.value != map[]
  {
  }

  /** Visiting the heads: `updated` is the best selection once they are compared. */
  lemma Visit(lists: Stock, heap: Heap, current: Selection, currentMaxMs: int,
              found: Option<Selection>, bestSpanMs: int, d: string, updated: Option<Selection>)
    requires Stocked(lists) && Sweeping(lists, heap, current, currentMaxMs, found, bestSpanMs)
    requires d == LeastHead(current)
    requires updated == if found.None? || Span(current) < bestSpanMs then Some(current) else found
    ensures Span(current) == currentMaxMs - heap[d].frame.timestampMs
    ensures Span(updated.value) == if found.None? || Span(current) < bestSpanMs then Span(current) else bestSpanMs
    ensures Span(updated.value) == 0 ==> updated.value == Sweep(lists)
    ensures heap[d].index + 1 == |lists[d]| ==> updated.value == Sweep(lists)
    ensures heap[d].index + 1 < |lists[d]| ==>
      var popped := Pop(Remaining(lists, heap), d);
      Stocked(popped) && Places(popped) < Places(Remaining(lists, heap))
      && Better(updated.value, Sweep(popped)) == Sweep(lists)
  {
    var stock := Remaining(lists, heap);
    LeastHeadIsLeast(current);
    assert |stock[d]| == |lists[d]| - heap[d].index;
    assert updated == Some(BetterOf(found, current));
    if |stock[d]| == 1 {
      BestAtEnd(stock, d, found);
    } else {
      BestGoesOn(stock, d, found);
    }
  }

  /** Replacing the popped camera's frame by its next one keeps the sweep going. */
  lemma GoOn(lists: Stock, heap: Heap, current: Selection, currentMaxMs: int,
             found: Option<Selection>, bestSpanMs: int, d: string, updated: Option<Selection>, updatedSpanMs: int)
    requires Stocked(lists) && InOrder(lists) && Sweeping(lists, heap, current, currentMaxMs, found, bestSpanMs)
    requires d == LeastHead(current) && heap[d].index + 1 < |lists[d]|
    requires updated == if found.None? || Span(current) < bestSpanMs then Some(current) else found
    requires updatedSpanMs == Span(updated.value)
    ensures var next := lists[d][heap[d].index + 1];
            var pushed := heap[d := HeapEntry(heap[d].index + 1, next)];
            && HeapHolds(pushed, lists)
            && Sweeping(lists, pushed, current[d := next],
                 if currentMaxMs < next.timestampMs then next.timestampMs else currentMaxMs, updated, updatedSpanMs)
            && Places(Remaining(lists, pushed)) < Places(Remaining(lists, heap))
  {
    var next := lists[d][heap[d].index + 1];
    var pushed := heap[d := HeapEntry(heap[d].index + 1, next)];
    Visit(lists, heap, current, currentMaxMs, found, bestSpanMs, d, updated);
    RemainingAfter(lists, heap, d);
    TopsAfter(heap, d, pushed[d]);
    assert current[d].timestampMs <= next.timestampMs;
    LatestAfter(current, d, next);
    RemainingStocked(lists, pushed);
  }

  /** One head per camera in a heap, the running latest timestamp, the best selection so
      far; it stops at span zero or when the popped camera has no other frame. */
  method SelectMinSpan(lists: Stock) returns (best: Selection, bestSpanMs: int)
    requires Stocked(lists) && InOrder(lists)
    ensures best == Sweep(lists) && bestSpanMs == Span(best)
  {
    hide *;
    var heap, current, currentMax := PushHeads(lists);
    var found: Option<Selection> := None;
    bestSpanMs := 0;
    while true
      invariant HeapHolds(heap, lists) && Sweeping(lists, heap, current, currentMax, found, bestSpanMs)
      decreases Places(Remaining(lists, heap))
    {
      HeapFacts(lists, heap, current, currentMax, found, bestSpanMs);
      var d := HeapLeast(heap);
      ghost var updated := if found.None? || Span(current) < bestSpanMs then Some(current) else found;
      ghost var updatedSpan := if found.None? || Span(current) < bestSpanMs then Span(current) else bestSpanMs;
      Visit(lists, heap, current, currentMax, found, bestSpanMs, d, updated);
      if heap[d].index + 1 < |lists[d]| {
        GoOn(lists, heap, current, currentMax, found, bestSpanMs, d, updated, updatedSpan);
      }
      var spanMs := currentMax - heap[d].frame.timestampMs;
      if found.None? || spanMs < bestSpanMs {
        bestSpanMs := spanMs;
        found := Some(current);
        if spanMs == 0 {
          break;
        }
      }
      var nextIndex := heap[d].index + 1;
      if nextIndex >= |lists[d]| {
        break;
      }
      var next := lists[d][nextIndex];
      heap := heap[d := HeapEntry(nextIndex, next)];
      current := current[d := next];
      currentMax := if currentMax < next.timestampMs then next.timestampMs else currentMax;
    }
    best := found.value;
  }
}

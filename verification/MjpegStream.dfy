/** Cutting a byte stream into JPEG images, and what becomes of it when it arrives in pieces. */
module MjpegStream {
  import opened Wrappers
  import opened Sequences

  type Byte = bv8

  const MARKER: Byte := 0xFF
  const SOI: Byte := 0xD8
  const EOI: Byte := 0xD9

  predicate MarkerAt(s: seq<Byte>, i: nat, kind: Byte)
  {
    i + 1 < |s| && s[i] == MARKER && s[i + 1] == kind
  }

  /** The first place at or after `from` where the marker stands. */
  function Find(s: seq<Byte>, kind: Byte, from: nat): (found: Option<nat>)
    ensures found.Some? ==> from <= found.value && MarkerAt(s, found.value, kind)
    decreases |s| - from
  {
    if from + 1 >= |s| then None
    else if MarkerAt(s, from, kind) then Some(from)
    else Find(s, kind, from + 1)
  }

  lemma {:induction false} FindSays(s: seq<Byte>, kind: Byte, from: nat)
    ensures var found := Find(s, kind, from);
            forall i | from <= i && (found.Some? ==> i < found.value) :: !MarkerAt(s, i, kind)
    decreases |s| - from
  {
    if from + 1 < |s| && !MarkerAt(s, from, kind) {
      FindSays(s, kind, from + 1);
    }
  }

  function Part(s: seq<Byte>, from: nat, to: nat): (r: seq<Byte>)
    requires from <= to <= |s|
    ensures |r| == to - from
  {
    s[from..to]
  }

  function Rest(s: seq<Byte>, from: nat): (r: seq<Byte>)
    requires from <= |s|
    ensures |r| == |s| - from
  {
    s[from..]
  }

  datatype Pieces = Pieces(frames: seq<seq<Byte>>, leftover: seq<Byte>)

  /** One image before the others. */
  function Then(frame: seq<Byte>, rest: Pieces): Pieces
  {
    Pieces([frame] + rest.frames, rest.leftover)
  }

  /** Some images before the others. */
  function After(frames: seq<seq<Byte>>, rest: Pieces): Pieces
  {
    Pieces(frames + rest.frames, rest.leftover)
  }

  /** The complete images, and what is kept for the next chunk: from the start of an image
      that has not ended, or nothing. */
  function Split(s: seq<Byte>): Pieces
    decreases |s|
  {
    var start := Find(s, SOI, 0);
    if start.None? then Pieces([], [])
    else
      var end := Find(s, EOI, start.value + 2);
      if end.None? then Pieces([], Rest(s, start.value))
      else
        Then(Part(s, start.value, end.value + 2), Split(Rest(s, end.value + 2)))
  }

  lemma SplitNothing(s: seq<Byte>)
    requires Find(s, SOI, 0).None?
    ensures Split(s) == Pieces([], [])
  {
  }

  lemma SplitOpen(s: seq<Byte>, start: nat)
    requires Find(s, SOI, 0) == Some(start) && Find(s, EOI, start + 2).None?
    ensures start <= |s| && Split(s) == Pieces([], Rest(s, start))
  {
  }

  lemma SplitFrame(s: seq<Byte>, start: nat, end: nat)
    requires Find(s, SOI, 0) == Some(start) && Find(s, EOI, start + 2) == Some(end)
    ensures start + 2 <= end && end + 2 <= |s|
    ensures Split(s) == Then(Part(s, start, end + 2), Split(Rest(s, end + 2)))
  {
  }

  function TotalLength(frames: seq<seq<Byte>>): nat
  {
    if frames == [] then 0 else |frames[0]| + TotalLength(frames[1..])
  }

  /** How many bytes were not thrown away. */
  function Bytes(pieces: Pieces): nat
  {
    TotalLength(pieces.frames) + |pieces.leftover|
  }

  lemma BytesThen(frame: seq<Byte>, rest: Pieces)
    ensures Bytes(Then(frame, rest)) == |frame| + Bytes(rest)
  {
    assert ([frame] + rest.frames)[1..] == rest.frames;
  }

  lemma {:induction false} BytesAfter(frames: seq<seq<Byte>>, rest: Pieces)
    ensures Bytes(After(frames, rest)) == TotalLength(frames) + Bytes(rest)
  {
    if frames == [] {
      EmptyLeft(rest.frames);
    } else {
      assert (frames + rest.frames)[1..] == frames[1..] + rest.frames;
      BytesAfter(frames[1..], rest);
    }
  }

  lemma {:induction false} BytesAtMost(s: seq<Byte>)
    ensures Bytes(Split(s)) <= |s|
    decreases |s|
  {
    var start := Find(s, SOI, 0);
    if start.Some? && Find(s, EOI, start.value + 2).Some? {
      var end := Find(s, EOI, start.value + 2).value;
      BytesAtMost(Rest(s, end + 2));
      SplitFrame(s, start.value, end);
      hide Split, Find;
      BytesThen(Part(s, start.value, end + 2), Split(Rest(s, end + 2)));
    }
  }

  /** Feeding a chunk to a buffer. */
  function Feed(leftover: seq<Byte>, chunk: seq<Byte>): Pieces
  {
    Split(leftover + chunk)
  }

  // ----- finding in longer streams -----

  lemma FoundIs(s: seq<Byte>, kind: Byte, from: nat, at: nat)
    requires from <= at && MarkerAt(s, at, kind) && forall i | from <= i < at :: !MarkerAt(s, i, kind)
    ensures Find(s, kind, from) == Some(at)
  {
    FindSays(s, kind, from);
    hide Find;
  }

  lemma FoundNowhere(s: seq<Byte>, kind: Byte, from: nat)
    requires forall i | from <= i :: !MarkerAt(s, i, kind)
    ensures Find(s, kind, from) == None
  {
    hide Find;
  }

  lemma SameMarker(s: seq<Byte>, t: seq<Byte>, kind: Byte, i: nat)
    requires i + 1 < |s|
    ensures MarkerAt(s + t, i, kind) == MarkerAt(s, i, kind)
  {
  }

  lemma ShiftedMarker(s: seq<Byte>, n: nat, kind: Byte, i: nat)
    requires n <= |s|
    ensures MarkerAt(Rest(s, n), i, kind) == MarkerAt(s, i + n, kind)
  {
  }

  /** What is found in a stream is found in every longer one. */
  lemma FoundEarly(s: seq<Byte>, t: seq<Byte>, kind: Byte, from: nat)
    requires Find(s, kind, from).Some?
    ensures Find(s + t, kind, from) == Find(s, kind, from)
  {
    var at := Find(s, kind, from).value;
    FindSays(s, kind, from);
    hide Find;
    forall i | from <= i <= at ensures MarkerAt(s + t, i, kind) == MarkerAt(s, i, kind) {
      SameMarker(s, t, kind, i);
    }
    hide MarkerAt;
    FoundIs(s + t, kind, from, at);
  }

  /** Where nothing can start before `n`, the search may begin there. */
  lemma FindShifted(s: seq<Byte>, n: nat, kind: Byte, from: nat)
    requires n <= |s| && n <= from
    ensures var a, b := Find(s, kind, from), Find(Rest(s, n), kind, from - n);
            if a.None? then b == None else b == Some(a.value - n)
  {
    var a := Find(s, kind, from);
    FindSays(s, kind, from);
    hide Find, MarkerAt;
    if a.Some? {
      forall i: nat | from - n <= i <= a.value - n ensures MarkerAt(Rest(s, n), i, kind) == MarkerAt(s, i + n, kind) {
        ShiftedMarker(s, n, kind, i);
      }
      FoundIs(Rest(s, n), kind, from - n, a.value - n);
    } else {
      forall i: nat | from - n <= i ensures !MarkerAt(Rest(s, n), i, kind) {
        ShiftedMarker(s, n, kind, i);
      }
      FoundNowhere(Rest(s, n), kind, from - n);
    }
  }

  lemma StartShifted(s: seq<Byte>, n: nat)
    requires n <= |s| && forall i | 0 <= i < n :: !MarkerAt(s, i, SOI)
    ensures var a, b := Find(s, SOI, 0), Find(Rest(s, n), SOI, 0);
            if a.None? then b == None else a.value >= n && b == Some(a.value - n)
  {
    FindSays(s, SOI, 0);
    var a := Find(s, SOI, 0);
    hide Find, MarkerAt;
    if a.Some? {
      FoundIs(s, SOI, n, a.value);
    } else {
      FoundNowhere(s, SOI, n);
    }
    FindShifted(s, n, SOI, n);
  }

  lemma PartShift(s: seq<Byte>, n: nat, t: seq<Byte>, i: nat, j: nat, k: nat, l: nat)
    requires n <= |s| && t == Rest(s, n) && i <= j <= |t| && k == n + i && l == n + j
    ensures Part(t, i, j) == Part(s, k, l)
  {
  }

  lemma RestShift(s: seq<Byte>, n: nat, t: seq<Byte>, i: nat, k: nat)
    requires n <= |s| && t == Rest(s, n) && i <= |t| && k == n + i
    ensures Rest(t, i) == Rest(s, k)
  {
  }

  /** `first` and `end` are places in `t`, `start` and `last` the same places in `s`. */
  lemma SkipsOpen(s: seq<Byte>, n: nat, t: seq<Byte>, start: nat, first: nat)
    requires n <= |s| && t == Rest(s, n) && start == n + first
    requires Find(s, SOI, 0) == Some(start) && Find(s, EOI, start + 2).None?
    requires Find(t, SOI, 0) == Some(first) && Find(t, EOI, first + 2).None?
    ensures Split(s) == Split(t)
  {
    hide *;
    SplitOpen(s, start);
    SplitOpen(t, first);
    RestShift(s, n, t, first, start);
  }

  lemma SkipsFrame(s: seq<Byte>, n: nat, t: seq<Byte>, start: nat, first: nat, last: nat, end: nat)
    requires n <= |s| && t == Rest(s, n) && start == n + first && last == n + end
    requires Find(s, SOI, 0) == Some(start) && Find(s, EOI, start + 2) == Some(last)
    requires Find(t, SOI, 0) == Some(first) && Find(t, EOI, first + 2) == Some(end)
    ensures Split(s) == Split(t)
  {
    hide *;
    SplitFrame(s, start, last);
    SplitFrame(t, first, end);
    assert Part(t, first, end + 2) == Part(s, start, last + 2) by {
      PartShift(s, n, t, first, end + 2, start, last + 2);
    }
    assert Rest(t, end + 2) == Rest(s, last + 2) by { RestShift(s, n, t, end + 2, last + 2); }
  }

  /** Bytes before the first start of an image do not matter. */
  lemma SkipsLead(s: seq<Byte>, n: nat)
    requires n <= |s| && forall i | 0 <= i < n :: !MarkerAt(s, i, SOI)
    ensures Split(s) == Split(Rest(s, n))
  {
    StartShifted(s, n);
    hide *;
    var start, t := Find(s, SOI, 0), Rest(s, n);
    if start.None? {
      SplitNothing(s);
      SplitNothing(t);
    } else {
      FindShifted(s, n, EOI, start.value + 2);
      var end := Find(s, EOI, start.value + 2);
      if end.None? {
        SkipsOpen(s, n, t, start.value, start.value - n);
      } else {
        SkipsFrame(s, n, t, start.value, start.value - n, end.value, end.value - n);
      }
    }
  }

  // ----- chunks -----

  /** A start marker is cut in two between the pieces, and nothing was kept of the first. */
  predicate CutsMarker(a: seq<Byte>, b: seq<Byte>)
  {
    a != [] && a[|a| - 1] == MARKER && b != [] && b[0] == SOI
  }

  /** Feeding in two pieces. */
  function InTwo(a: seq<Byte>, b: seq<Byte>): Pieces
  {
    var first := Split(a);
    After(first.frames, Feed(first.leftover, b))
  }

  /** What is kept is nothing, or starts an image. */
  lemma {:induction false} LeftoverStarts(s: seq<Byte>)
    ensures var leftover := Split(s).leftover; leftover != [] ==> MarkerAt(leftover, 0, SOI)
    decreases |s|
  {
    var start := Find(s, SOI, 0);
    if start.Some? && Find(s, EOI, start.value + 2).Some? {
      LeftoverStarts(Rest(s, Find(s, EOI, start.value + 2).value + 2));
    }
  }

  lemma NoStartAcross(a: seq<Byte>, b: seq<Byte>, n: nat)
    requires Find(a, SOI, 0).None? && n <= |a| && (n == |a| ==> !CutsMarker(a, b))
    ensures forall i | 0 <= i < n :: !MarkerAt(a + b, i, SOI)
  {
    FindSays(a, SOI, 0);
    hide Find;
    forall i: nat | i < n ensures !MarkerAt(a + b, i, SOI) {
      if i + 1 < |a| { SameMarker(a, b, SOI, i); }
    }
  }

  lemma TailOfSum(a: seq<Byte>, b: seq<Byte>)
    ensures Rest(a + b, |a|) == b
    ensures a != [] && a[|a| - 1] == MARKER ==> Rest(a + b, |a| - 1) == [MARKER] + b
  {
  }

  /** Without a start in the first piece, nothing of it counts but a marker byte at its end. */
  lemma NoStart(a: seq<Byte>, b: seq<Byte>)
    requires Find(a, SOI, 0).None?
    ensures !CutsMarker(a, b) ==> Split(a + b) == Split(b)
    ensures CutsMarker(a, b) ==> Split(a + b) == Split([MARKER] + b)
  {
    var n := if CutsMarker(a, b) then |a| - 1 else |a|;
    TailOfSum(a, b);
    NoStartAcross(a, b, n);
    assert n <= |a + b|;
    hide Find, Split, MarkerAt;
    SkipsLead(a + b, n);
  }

  lemma SliceOfSum(a: seq<Byte>, b: seq<Byte>, i: nat, j: nat)
    requires i <= j <= |a|
    ensures Part(a + b, i, j) == Part(a, i, j) && Rest(a + b, j) == Rest(a, j) + b
  {
  }

  /** With an unfinished image in the first piece, the second continues it. */
  lemma Unfinished(a: seq<Byte>, b: seq<Byte>)
    requires Find(a, SOI, 0).Some? && Find(a, EOI, Find(a, SOI, 0).value + 2).None?
    ensures Split(a + b) == Feed(Split(a).leftover, b)
  {
    var start := Find(a, SOI, 0).value;
    SplitOpen(a, start);
    FoundEarly(a, b, SOI, 0);
    FindSays(a + b, SOI, 0);
    SliceOfSum(a, b, start, start);
    assert Feed(Rest(a, start), b) == Split(Rest(a, start) + b);
    assert start <= |a + b|;
    hide *;
    SkipsLead(a + b, start);
  }

  /** A finished image in the first piece is found again in the whole. */
  lemma Finished(a: seq<Byte>, b: seq<Byte>, start: nat, end: nat)
    requires Find(a, SOI, 0) == Some(start) && Find(a, EOI, start + 2) == Some(end)
    ensures start + 2 <= end && end + 2 <= |a| && a[end + 1] == EOI
    ensures Split(a + b) == Then(Part(a, start, end + 2), Split(Rest(a, end + 2) + b))
    ensures Split(a) == Then(Part(a, start, end + 2), Split(Rest(a, end + 2)))
  {
    FoundEarly(a, b, SOI, 0);
    FoundEarly(a, b, EOI, start + 2);
    hide Split, Find;
    SplitFrame(a, start, end);
    SplitFrame(a + b, start, end);
    SliceOfSum(a, b, start, end + 2);
  }

  lemma SplitBytes(s: seq<Byte>, start: nat, end: nat)
    requires Find(s, SOI, 0) == Some(start) && Find(s, EOI, start + 2) == Some(end)
    ensures end + 2 <= |s| && Bytes(Split(s)) == end + 2 - start + Bytes(Split(Rest(s, end + 2)))
  {
    SplitFrame(s, start, end);
    hide Split, Find, Bytes;
    BytesThen(Part(s, start, end + 2), Split(Rest(s, end + 2)));
  }

  /** Of an image that starts before `b` and ends in it, `b` alone gives less. */
  lemma LostFrameBytes(b: seq<Byte>, end: nat)
    requires b != [] && b[0] == SOI && Find(b, EOI, 1) == Some(end) && end + 2 <= |b|
    ensures Bytes(Split(b)) < end + 3 + Bytes(Split(Rest(b, end + 2)))
  {
    var start := Find(b, SOI, 0);
    if start.Some? && start.value < end {
      EndAfterStart(b, start.value, end);
      hide *;
      SplitBytes(b, start.value, end);
    } else {
      NoStartBefore(b, end);
      hide *;
      SkipsLead(b, end + 2);
    }
  }

  lemma EndAfterStart(b: seq<Byte>, start: nat, end: nat)
    requires b != [] && b[0] == SOI && Find(b, EOI, 1) == Some(end) && Find(b, SOI, 0) == Some(start) && start < end
    ensures Find(b, EOI, start + 2) == Some(end)
  {
    FindSays(b, EOI, 1);
    assert start + 2 <= end;
    hide Find;
    FoundIs(b, EOI, start + 2, end);
  }

  lemma NoStartBefore(b: seq<Byte>, end: nat)
    requires Find(b, EOI, 1) == Some(end) && (Find(b, SOI, 0).Some? ==> end <= Find(b, SOI, 0).value)
    ensures forall i | 0 <= i < end + 2 :: !MarkerAt(b, i, SOI)
  {
    FindSays(b, SOI, 0);
    hide Find;
  }

  /** The marker cut in two shows: with it a start is seen that is otherwise missed. */
  lemma LostMarkerBytes(b: seq<Byte>)
    requires b != [] && b[0] == SOI
    ensures Bytes(Split(b)) < Bytes(Split([MARKER] + b))
  {
    var s := [MARKER] + b;
    TailOfSum([MARKER], b);
    assert MarkerAt(s, 0, SOI);
    hide *;
    FoundIs(s, SOI, 0, 0);
    FindShifted(s, 1, EOI, 2);
    var end := Find(b, EOI, 1);
    if end.None? {
      BytesAtMost(b);
      OpenBytes(s);
    } else {
      SplitBytes(s, 0, end.value + 1);
      RestShift(s, 1, b, end.value + 2, end.value + 3);
      LostFrameBytes(b, end.value);
    }
  }

  lemma OpenBytes(s: seq<Byte>)
    requires Find(s, SOI, 0) == Some(0) && Find(s, EOI, 2).None?
    ensures Bytes(Split(s)) == |s|
  {
    SplitOpen(s, 0);
    hide Split, Find;
  }

  /** The boundary cuts a start marker, and nothing was kept of the first piece. */
  predicate LosesStart(a: seq<Byte>, b: seq<Byte>)
  {
    Split(a).leftover == [] && CutsMarker(a, b)
  }

  /** What becomes of two pieces: the same as of the whole, or fewer bytes. */
  predicate Compares(a: seq<Byte>, b: seq<Byte>)
  {
    if LosesStart(a, b) then Bytes(InTwo(a, b)) < Bytes(Split(a + b)) else InTwo(a, b) == Split(a + b)
  }

  /** Without a start in the first piece. */
  lemma TwoWithoutStart(a: seq<Byte>, b: seq<Byte>)
    requires Find(a, SOI, 0).None?
    ensures Compares(a, b)
  {
    NoStart(a, b);
    SplitNothing(a);
    hide Split, Find;
    EmptyLeft(b);
    EmptyLeft(Split(b).frames);
    if CutsMarker(a, b) { LostMarkerBytes(b); }
  }

  lemma SameEnd(a: seq<Byte>, b: seq<Byte>, cut: nat)
    requires 0 < cut <= |a| && a[cut - 1] == EOI
    ensures CutsMarker(a, b) == CutsMarker(Rest(a, cut), b)
  {
  }

  lemma SameLeftover(a: seq<Byte>, start: nat, cut: nat)
    requires start <= cut <= |a| && Split(a) == Then(Part(a, start, cut), Split(Rest(a, cut)))
    ensures Split(a).leftover == Split(Rest(a, cut)).leftover
  {
    hide Split, Part, Rest;
  }

  lemma TwoUnfinished(a: seq<Byte>, b: seq<Byte>)
    requires Find(a, SOI, 0).Some? && Find(a, EOI, Find(a, SOI, 0).value + 2).None?
    ensures Compares(a, b)
  {
    Unfinished(a, b);
    SplitOpen(a, Find(a, SOI, 0).value);
    hide Split, Find;
    EmptyLeft(Feed(Split(a).leftover, b).frames);
  }

  lemma {:induction false} PiecesCompare(a: seq<Byte>, b: seq<Byte>)
    ensures Compares(a, b)
    decreases |a|
  {
    hide *;
    var start := Find(a, SOI, 0);
    if start.None? {
      TwoWithoutStart(a, b);
    } else {
      var end := Find(a, EOI, start.value + 2);
      if end.None? {
        TwoUnfinished(a, b);
      } else {
        Finished(a, b, start.value, end.value);
        SameEnd(a, b, end.value + 2);
        PiecesCompare(Rest(a, end.value + 2), b);
        SameLeftover(a, start.value, end.value + 2);
        CompareAfterFrame(a, b, start.value, end.value + 2);
      }
    }
  }

  /** One image more at the front of both changes nothing. */
  lemma CompareAfterFrame(a: seq<Byte>, b: seq<Byte>, start: nat, cut: nat)
    requires start <= cut <= |a|
    requires Split(a + b) == Then(Part(a, start, cut), Split(Rest(a, cut) + b))
    requires Split(a) == Then(Part(a, start, cut), Split(Rest(a, cut)))
    requires Split(a).leftover == Split(Rest(a, cut)).leftover && CutsMarker(a, b) == CutsMarker(Rest(a, cut), b)
    requires Compares(Rest(a, cut), b)
    ensures Compares(a, b)
  {
    hide Split, Part, Rest, Feed, Bytes, CutsMarker;
    var frame, first, second := Part(a, start, cut), Split(Rest(a, cut)), Feed(Split(a).leftover, b);
    Associative([frame], first.frames, second.frames);
    assert InTwo(a, b) == Then(frame, InTwo(Rest(a, cut), b));
    BytesThen(frame, InTwo(Rest(a, cut), b));
    BytesThen(frame, Split(Rest(a, cut) + b));
  }

  /** Two pieces give what the whole gives, exactly unless the boundary cuts a start marker
      of which the first piece kept nothing. */
  lemma {:induction false} TwoPieces(a: seq<Byte>, b: seq<Byte>)
    ensures InTwo(a, b) == Split(a + b) <==> !LosesStart(a, b)
  {
    PiecesCompare(a, b);
    hide InTwo, Split, LosesStart, Bytes;
  }

  /** Cut after its first byte, a stream of one image gives none. */
  lemma {:induction false} CutMarkerLosesImage(b: seq<Byte>)
    requires b == [SOI, MARKER, EOI]
    ensures LosesStart([MARKER], b)
    ensures Split([MARKER] + b) == Pieces([[MARKER, SOI, MARKER, EOI]], [])
    ensures InTwo([MARKER], b) == Pieces([], [])
  {
    var s := [MARKER] + b;
    assert MarkerAt(s, 0, SOI) && MarkerAt(s, 2, EOI);
    SplitFrame(s, 0, 2);
    assert Part(s, 0, 4) == [MARKER, SOI, MARKER, EOI] && Rest(s, 4) == [];
    SplitNothing([]);
    SplitNothing([MARKER]);
    assert !MarkerAt(b, 0, SOI) && !MarkerAt(b, 1, SOI);
    FoundNowhere(b, SOI, 0);
    SplitNothing(b);
    EmptyLeft(b);
  }

  // ----- a whole stream of chunks -----

  function FeedAll(leftover: seq<Byte>, chunks: seq<seq<Byte>>): Pieces
    decreases |chunks|
  {
    if chunks == [] then Pieces([], leftover)
    else
      var first := Feed(leftover, chunks[0]);
      After(first.frames, FeedAll(first.leftover, chunks[1..]))
  }

  function Whole(chunks: seq<seq<Byte>>): seq<Byte>
  {
    if chunks == [] then [] else chunks[0] + Whole(chunks[1..])
  }

  /** No boundary cuts a start marker while nothing is kept of what came before. */
  predicate NoStartLost(before: seq<Byte>, chunks: seq<seq<Byte>>)
    decreases |chunks|
  {
    chunks == [] || (!LosesStart(before, chunks[0]) && NoStartLost(before + chunks[0], chunks[1..]))
  }

  /** What comes of a text and then chunks. */
  function FeedFrom(before: seq<Byte>, chunks: seq<seq<Byte>>): Pieces
  {
    After(Split(before).frames, FeedAll(Split(before).leftover, chunks))
  }

  lemma FeedNothing(before: seq<Byte>)
    ensures FeedFrom(before, []) == Split(before)
  {
    EmptyRight(Split(before).frames);
  }

  lemma FeedKept(before: seq<Byte>, chunks: seq<seq<Byte>>)
    requires chunks != [] && InTwo(before, chunks[0]) == Split(before + chunks[0])
    ensures FeedFrom(before, chunks) == FeedFrom(before + chunks[0], chunks[1..])
  {
    hide Split;
    var first := Feed(Split(before).leftover, chunks[0]);
    Associative(Split(before).frames, first.frames, FeedAll(first.leftover, chunks[1..]).frames);
  }

  lemma FeedAnew(before: seq<Byte>, chunks: seq<seq<Byte>>)
    requires chunks != [] && Split(before).leftover == []
    ensures FeedFrom(before, chunks) == After(Split(before).frames, FeedFrom(chunks[0], chunks[1..]))
  {
    hide Split;
    EmptyLeft(chunks[0]);
  }

  /** Where a start is lost, what follows cannot make up for it. */
  lemma LostForGood(before: seq<Byte>, chunk: seq<Byte>, rest: seq<Byte>, fed: Pieces)
    requires LosesStart(before, chunk) && Bytes(fed) <= Bytes(Split(chunk + rest))
    ensures Bytes(After(Split(before).frames, fed)) < Bytes(Split(before + (chunk + rest)))
  {
    PiecesCompare(before, chunk + rest);
    EmptyLeft(chunk + rest);
    hide Split, Bytes;
    BytesAfter(Split(before).frames, fed);
    BytesAfter(Split(before).frames, Split(chunk + rest));
  }

  lemma {:induction false} ChunksCompare(before: seq<Byte>, chunks: seq<seq<Byte>>)
    ensures if NoStartLost(before, chunks) then FeedFrom(before, chunks) == Split(before + Whole(chunks))
            else Bytes(FeedFrom(before, chunks)) < Bytes(Split(before + Whole(chunks)))
    decreases |chunks|
  {
    hide Split, FeedFrom, LosesStart, Bytes, InTwo;
    if chunks == [] {
      EmptyRight(before);
      FeedNothing(before);
    } else if LosesStart(before, chunks[0]) {
      ChunksCompare(chunks[0], chunks[1..]);
      FeedAnew(before, chunks) by { assert Split(before).leftover == [] by { NothingKept(before, chunks[0]); } }
      LostForGood(before, chunks[0], Whole(chunks[1..]), FeedFrom(chunks[0], chunks[1..]));
    } else {
      PiecesCompare(before, chunks[0]);
      ChunksCompare(before + chunks[0], chunks[1..]);
      FeedKept(before, chunks);
      Associative(before, chunks[0], Whole(chunks[1..]));
    }
  }

  lemma NothingKept(before: seq<Byte>, chunk: seq<Byte>)
    requires LosesStart(before, chunk)
    ensures Split(before).leftover == []
  {
  }

  lemma FeedFromNothing(chunks: seq<seq<Byte>>)
    ensures FeedFrom([], chunks) == FeedAll([], chunks)
  {
    SplitNothing([]);
    EmptyLeft(FeedAll([], chunks).frames);
  }

  /** However the stream is cut: the images and the leftover of the whole come out exactly if
      no boundary cuts a start marker while nothing is kept. */
  lemma {:induction false} ChunkingIrrelevant(chunks: seq<seq<Byte>>)
    ensures FeedAll([], chunks) == Split(Whole(chunks)) <==> NoStartLost([], chunks)
  {
    hide *;
    ChunksCompare([], chunks);
    FeedFromNothing(chunks);
    EmptyLeft(Whole(chunks));
  }

  // ----- the buffer -----

  lemma NoneBefore(rest: Pieces)
    ensures After([], rest) == rest
  {
    EmptyLeft(rest.frames);
  }

  lemma NothingAfter(frames: seq<seq<Byte>>, leftover: seq<Byte>)
    ensures After(frames, Pieces([], leftover)) == Pieces(frames, leftover)
  {
    EmptyRight(frames);
  }

  lemma OneMoreAfter(frames: seq<seq<Byte>>, frame: seq<Byte>, rest: Pieces)
    ensures After(frames + [frame], rest) == After(frames, Then(frame, rest))
  {
    Associative(frames, [frame], rest.frames);
  }

  class MjpegBuffer {
    var buffer: seq<Byte>

    constructor ()
      ensures buffer == []
    {
      buffer := [];
    }

    /** Cuts the complete images off the front; every turn removes at least four bytes. */
    method ExtractFrames() returns (frames: seq<seq<Byte>>)
      modifies this
      ensures Pieces(frames, buffer) == Split(old(buffer))
    {
      hide Find, Split, Part, Rest;
      frames := [];
      NoneBefore(Split(buffer));
      while true
        invariant After(frames, Split(buffer)) == Split(old(buffer))
        decreases |buffer|
      {
        var start := Find(buffer, SOI, 0);
        if start.None? {
          SplitNothing(buffer);
          NothingAfter(frames, []);
          buffer := [];
          break;
        }
        var end := Find(buffer, EOI, start.value + 2);
        if end.None? {
          SplitOpen(buffer, start.value);
          NothingAfter(frames, Rest(buffer, start.value));
          buffer := Rest(buffer, start.value);
          break;
        }
        SplitFrame(buffer, start.value, end.value);
        var frame, rest := Part(buffer, start.value, end.value + 2), Rest(buffer, end.value + 2);
        OneMoreAfter(frames, frame, Split(rest));
        assert |rest| + 4 <= |buffer|;
        frames := frames + [frame];
        buffer := rest;
      }
    }

    /** A chunk that arrives is appended before the images are cut off. */
    method Receive(chunk: seq<Byte>) returns (frames: seq<seq<Byte>>)
      modifies this
      ensures Pieces(frames, buffer) == Feed(old(buffer), chunk)
    {
      buffer := buffer + chunk;
      frames := ExtractFrames();
    }
  }
}

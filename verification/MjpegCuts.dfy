/** What the splitter cuts out of a stream, said of the places in the stream. */
module MjpegCuts {
  import opened Wrappers
  import opened MjpegStream

  /** The bytes FF and `kind` stand at the place. */
  predicate Stands(s: seq<Byte>, i: nat, kind: Byte)
  {
    i + 1 < |s| && s[i] == 0xFF && s[i + 1] == kind
  }

  /** Where an image begins and where the next byte after it is. */
  datatype Cut = Cut(first: nat, next: nat)

  /** From the first start marker at or after `from` to the first end marker behind it. */
  predicate IsImage(s: seq<Byte>, from: nat, cut: Cut)
  {
    && from <= cut.first && cut.first + 4 <= cut.next <= |s|
    && Stands(s, cut.first, 0xD8) && (forall i | from <= i < cut.first :: !Stands(s, i, 0xD8))
    && Stands(s, cut.next - 2, 0xD9) && (forall i | cut.first + 2 <= i < cut.next - 2 :: !Stands(s, i, 0xD9))
  }

  /** No image begins at or after `from`, or one begins and does not end. */
  predicate IsRest(s: seq<Byte>, from: nat, leftover: seq<Byte>)
  {
    if forall i: nat | from <= i < |s| :: !Stands(s, i, 0xD8) then leftover == []
    else
      exists first: nat | first < |s| ::
        && from <= first && Stands(s, first, 0xD8) && (forall i | from <= i < first :: !Stands(s, i, 0xD8))
        && (forall i | first + 2 <= i < |s| :: !Stands(s, i, 0xD9))
        && leftover == s[first..]
  }

  /** The images one after the other, from `from` on, and the rest. */
  predicate AreCuts(s: seq<Byte>, from: nat, cuts: seq<Cut>, pieces: Pieces)
    decreases |cuts|
  {
    if cuts == [] then pieces.frames == [] && IsRest(s, from, pieces.leftover)
    else
      && IsImage(s, from, cuts[0])
      && pieces.frames != [] && pieces.frames[0] == s[cuts[0].first..cuts[0].next]
      && AreCuts(s, cuts[0].next, cuts[1..], Pieces(pieces.frames[1..], pieces.leftover))
  }

  lemma FindIsFirst(s: seq<Byte>, kind: Byte, from: nat)
    ensures var found := Find(s, kind, from);
            && (found.Some? ==>
                  && from <= found.value && Stands(s, found.value, kind)
                  && forall i | from <= i < found.value :: !Stands(s, i, kind))
            && (found.None? ==> forall i: nat | from <= i < |s| :: !Stands(s, i, kind))
  {
    FindSays(s, kind, from);
    hide Find;
    forall i: nat ensures MarkerAt(s, i, kind) <==> Stands(s, i, kind) {
    }
    hide MarkerAt, Stands;
  }

  lemma RestFindIsFirst(s: seq<Byte>, from: nat)
    requires from <= |s|
    ensures var start := Find(Rest(s, from), SOI, 0);
            if start.None? then Find(s, SOI, from).None? else Find(s, SOI, from) == Some(start.value + from)
    ensures var start := Find(Rest(s, from), SOI, 0);
            start.Some? ==>
              var end := Find(Rest(s, from), EOI, start.value + 2);
              if end.None? then Find(s, EOI, start.value + from + 2).None?
              else Find(s, EOI, start.value + from + 2) == Some(end.value + from)
  {
    hide Find;
    FindShifted(s, from, SOI, from);
    var start := Find(Rest(s, from), SOI, 0);
    if start.Some? { FindShifted(s, from, EOI, start.value + from + 2); }
  }

  lemma RestOfRest(s: seq<Byte>, from: nat, i: nat, j: nat)
    requires from <= |s| && i <= j <= |s| - from
    ensures Rest(Rest(s, from), j) == s[from + j..] && Rest(s, from + j) == s[from + j..]
    ensures Part(Rest(s, from), i, j) == s[from + i..from + j]
  {
  }

  lemma SplitOpenCut(s: seq<Byte>, from: nat, start: nat)
    requires from <= |s| && Find(Rest(s, from), SOI, 0) == Some(start)
    requires Find(Rest(s, from), EOI, start + 2).None?
    ensures AreCuts(s, from, [], Split(Rest(s, from)))
  {
    hide *;
    RestFindIsFirst(s, from);
    SplitOpen(Rest(s, from), start);
    OpenCut(s, from, start + from);
    RestOfRest(s, from, 0, start);
  }

  lemma SplitImageCut(s: seq<Byte>, from: nat, start: nat, end: nat, more: seq<Cut>)
    requires from <= |s| && Find(Rest(s, from), SOI, 0) == Some(start)
    requires Find(Rest(s, from), EOI, start + 2) == Some(end)
    requires from + end + 2 <= |s| && AreCuts(s, from + end + 2, more, Split(Rest(s, from + end + 2)))
    ensures AreCuts(s, from, [Cut(from + start, from + end + 2)] + more, Split(Rest(s, from)))
  {
    hide *;
    RestFindIsFirst(s, from);
    SplitFrame(Rest(s, from), start, end);
    ImageCut(s, from, from + start, from + end);
    RestOfRest(s, from, start, end + 2);
    FirstCut(s, from, Cut(from + start, from + end + 2), more, Split(Rest(s, from + end + 2)));
  }

  /** The images are found one after the other, each at its place. */
  lemma {:induction false} SplitCutsFrom(s: seq<Byte>, from: nat) returns (cuts: seq<Cut>)
    requires from <= |s|
    ensures AreCuts(s, from, cuts, Split(Rest(s, from)))
    decreases |s| - from
  {
    hide *;
    cuts := [];
    var start := Find(Rest(s, from), SOI, 0);
    if start.None? {
      RestFindIsFirst(s, from);
      SplitNothing(Rest(s, from));
      NothingCut(s, from);
    } else {
      var end := Find(Rest(s, from), EOI, start.value + 2);
      if end.None? {
        SplitOpenCut(s, from, start.value);
      } else {
        SplitFrame(Rest(s, from), start.value, end.value);
        var more := SplitCutsFrom(s, from + end.value + 2);
        SplitImageCut(s, from, start.value, end.value, more);
        cuts := [Cut(from + start.value, from + end.value + 2)] + more;
      }
    }
  }

  lemma FirstCut(s: seq<Byte>, from: nat, cut: Cut, more: seq<Cut>, rest: Pieces)
    requires IsImage(s, from, cut) && AreCuts(s, cut.next, more, rest)
    ensures AreCuts(s, from, [cut] + more, Then(s[cut.first..cut.next], rest))
  {
    var all, frame := [cut] + more, s[cut.first..cut.next];
    assert all[0] == cut && all[1..] == more;
    assert ([frame] + rest.frames)[0] == frame && ([frame] + rest.frames)[1..] == rest.frames;
  }

  lemma NothingCut(s: seq<Byte>, from: nat)
    requires Find(s, SOI, from).None?
    ensures AreCuts(s, from, [], Pieces([], []))
  {
    FindIsFirst(s, SOI, from);
    hide Find, Stands;
  }

  lemma OpenCut(s: seq<Byte>, from: nat, first: nat)
    requires Find(s, SOI, from) == Some(first) && Find(s, EOI, first + 2).None?
    ensures first <= |s| && AreCuts(s, from, [], Pieces([], s[first..]))
  {
    FindIsFirst(s, SOI, from);
    FindIsFirst(s, EOI, first + 2);
    assert first + 1 < |s|;
    hide Find, Stands;
  }

  lemma ImageCut(s: seq<Byte>, from: nat, first: nat, end: nat)
    requires Find(s, SOI, from) == Some(first) && Find(s, EOI, first + 2) == Some(end)
    ensures end + 2 <= |s| && IsImage(s, from, Cut(first, end + 2))
  {
    FindIsFirst(s, SOI, from);
    FindIsFirst(s, EOI, first + 2);
    hide Find;
  }

  /** The splitter cuts from each start marker behind the last image to the next end marker, and
      keeps an image that has begun and not ended. */
  lemma {:induction false} SplitCuts(s: seq<Byte>)
    ensures exists cuts :: AreCuts(s, 0, cuts, Split(s))
  {
    var cuts := SplitCutsFrom(s, 0);
    assert Rest(s, 0) == s;
  }
}

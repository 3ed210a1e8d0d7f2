/** A legacy frame that goes back in time: there stale pruning shows. */
module Rewinds {
  import opened Wrappers
  import opened SyncModels
  import opened BufferSpec
  import opened IdentityResolution
  import opened SyncSpec
  import opened TwoCameras

  function PlainFrame(deviceId: string, uid: string, timestampMs: int): SyncFrame
  {
    SyncFrame(
      "", deviceId, timestampMs, None, SourceIdentity(None, None), Some(uid), None, "image", LEGACY, None,
      Scope(None, None, None, None, None, None, None, None, None), Archive(None, None, ARCHIVE_PENDING, None))
  }

  predicate Plain(f: SyncFrame)
  {
    f.mode == LEGACY && f.source == SourceIdentity(None, None) && f.sequence.None?
  }

  predicate AllPlain(frames: seq<SyncFrame>)
  {
    forall f | f in frames :: Plain(f)
  }

  lemma PlainStored(deviceId: string, uid: string, timestampMs: int)
    requires uid != ""
    ensures var f := Stored(PlainFrame(deviceId, uid, timestampMs));
            && Plain(f) && f.deviceId == deviceId && f.timestampMs == timestampMs && f.bufferKey == "source:" + uid
  {
  }

  lemma PlainResolves(f: SyncFrame, g: SyncFrame)
    requires Plain(f)
    ensures !Resolve([f, g]).ScopeConflict?
  {
    assert !([f, g][0].IdentityComplete());
  }

  function Narrow(): Config
  {
    Config(["left", "right"], 0, 10)
  }

  lemma PlainAdmits(keys: set<string>, left: seq<SyncFrame>, right: seq<SyncFrame>, n: nat, f: SyncFrame)
    requires n < 30 && |left| < 30 && |right| < 30 && AllPlain(left) && AllPlain(right) && Plain(f)
    requires f.bufferKey !in keys && (f.deviceId == "left" || f.deviceId == "right")
    ensures Admits(Narrow(), keys, left, right, n, f)
  {
    var frames := if f.deviceId == "left" then left else right;
    if frames != [] {
      assert Plain(frames[|frames| - 1]);
    }
  }

  /** Frames of the left camera alone make no set. */
  lemma LeftAlone(
      pruning: bool, inputs: seq<Input>, keys: set<string>, left: seq<SyncFrame>, n: nat, input: Input)
    requires Silent(Narrow(), pruning, inputs, keys, left, [], n) && n < 30 && |left| < 30 && AllPlain(left)
    requires var f := Stored(input.frame); Plain(f) && f.deviceId == "left" && f.bufferKey !in keys
    ensures var f := Stored(input.frame);
            Silent(Narrow(), pruning, inputs + [input], keys + {f.bufferKey}, left + [f], [], n + 1)
  {
    var f := Stored(input.frame);
    hide Silent, Admits, Stored, More, Plain;
    PlainAdmits(keys, left, [], n, f);
    MoreIs(left, [], f);
    SilentApart(Narrow(), pruning, inputs, keys, left, [], n, input);
  }

  /** A frame of the right camera that has no counterpart. */
  lemma RightApart(
      pruning: bool, inputs: seq<Input>, keys: set<string>, left: seq<SyncFrame>, right: seq<SyncFrame>, n: nat,
      input: Input)
    requires Silent(Narrow(), pruning, inputs, keys, left, right, n) && n < 30 && |left| < 30 && |right| < 30
    requires AllPlain(left) && AllPlain(right)
    requires var f := Stored(input.frame); Plain(f) && f.deviceId == "right" && f.bufferKey !in keys
    requires forall x, y | x in left && y in right + [Stored(input.frame)] :: x.timestampMs != y.timestampMs
    ensures var r := right + [Stored(input.frame)];
            Silent(Narrow(), pruning, inputs + [input], keys + {Stored(input.frame).bufferKey},
                   Left(left, left, r, 0, pruning), Left(r, left, r, 0, pruning), n + 1)
  {
    var f := Stored(input.frame);
    hide Silent, Admits, Stored, More, Plain, Left;
    PlainAdmits(keys, left, right, n, f);
    MoreIs(left, right, f);
    SilentApart(Narrow(), pruning, inputs, keys, left, right, n, input);
  }

  lemma RightMatches(
      pruning: bool, inputs: seq<Input>, keys: set<string>, left: seq<SyncFrame>, right: seq<SyncFrame>, n: nat,
      input: Input, x: SyncFrame)
    requires Silent(Narrow(), pruning, inputs, keys, left, right, n) && n < 30 && |left| < 30 && |right| < 30
    requires AllPlain(left) && AllPlain(right)
    requires var f := Stored(input.frame); Plain(f) && f.deviceId == "right" && f.bufferKey !in keys
    requires x in left && x.timestampMs == Stored(input.frame).timestampMs
    ensures Run(Narrow(), pruning, Initial(30, "run"), inputs + [input]).emitted != []
  {
    var f := Stored(input.frame);
    hide Silent, Admits, Stored, More, Plain, Resolve, Run;
    PlainAdmits(keys, left, right, n, f);
    MoreIs(left, right, f);
    assert f in right + [f];
    forall g, h | g in left && h in right + [f] ensures !Resolve([g, h]).ScopeConflict? {
      PlainResolves(g, h);
    }
    LastEmits(Narrow(), pruning, inputs, keys, left, right, n, input, x, f);
  }

  lemma KeptSecond(a: SyncFrame, b: SyncFrame, c: SyncFrame, pruning: bool)
    requires a.timestampMs < b.timestampMs < c.timestampMs
    ensures Left([a, b], [a, b], [c], 0, pruning) == if pruning then [b] else [a, b]
    ensures Left([c], [a, b], [c], 0, pruning) == [c]
  {
    assert [a, b][1..] == [b] && [b][1..] == [] && [c][1..] == [];
    assert Last([a, b]) == b.timestampMs && Last([c]) == c.timestampMs;
    var cutoff := b.timestampMs - 0;
    assert NotBefore([b], cutoff) == [b] && NotBefore([c], cutoff) == [c];
    assert NotBefore([a, b], cutoff) == NotBefore([b], cutoff);
    if pruning {
      assert Left([a, b], [a, b], [c], 0, pruning) == NotBefore([a, b], cutoff);
      assert Left([c], [a, b], [c], 0, pruning) == NotBefore([c], cutoff);
    }
  }

  /** Two frames of the left camera, and a later one of the right. */
  lemma RewindBegins(pruning: bool, x: Input, y: Input, z: Input)
    requires var a, b, c := Stored(x.frame), Stored(y.frame), Stored(z.frame);
             && Plain(a) && Plain(b) && Plain(c) && a.timestampMs < b.timestampMs < c.timestampMs
             && a.deviceId == "left" && b.deviceId == "left" && c.deviceId == "right"
             && a.bufferKey != b.bufferKey && c.bufferKey != a.bufferKey && c.bufferKey != b.bufferKey
    ensures var a, b, c := Stored(x.frame), Stored(y.frame), Stored(z.frame);
            Silent(Narrow(), pruning, [x] + [y] + [z], {a.bufferKey} + {b.bufferKey} + {c.bufferKey},
                   if pruning then [b] else [a, b], [c], 3)
  {
    var a, b, c := Stored(x.frame), Stored(y.frame), Stored(z.frame);
    hide *;
    Begin(Narrow(), pruning);
    AllPlainOf(a, b);
    LeftAlone(pruning, [], {}, [], 0, x);
    assert [] + [x] == [x] && {} + {a.bufferKey} == {a.bufferKey} && [] + [a] == [a];
    LeftAlone(pruning, [x], {a.bufferKey}, [a], 1, y);
    assert [a] + [b] == [a, b];
    RightApart(pruning, [x] + [y], {a.bufferKey} + {b.bufferKey}, [a, b], [], 2, z);
    assert [] + [c] == [c];
    KeptSecond(a, b, c, pruning);
  }

  lemma AllPlainOf(a: SyncFrame, b: SyncFrame)
    requires Plain(a) && Plain(b)
    ensures AllPlain([]) && AllPlain([a]) && AllPlain([a, b]) && AllPlain([b])
  {
  }

  lemma RewindDiffers(x: Input, y: Input, z: Input, last: Input)
    requires var a, b, c, d := Stored(x.frame), Stored(y.frame), Stored(z.frame), Stored(last.frame);
             && Plain(a) && Plain(b) && Plain(c) && Plain(d)
             && a.timestampMs < b.timestampMs < c.timestampMs && d.timestampMs == a.timestampMs
             && a.deviceId == "left" && b.deviceId == "left" && c.deviceId == "right" && d.deviceId == "right"
             && a.bufferKey != b.bufferKey && c.bufferKey != a.bufferKey && c.bufferKey != b.bufferKey
             && d.bufferKey !in {a.bufferKey} + {b.bufferKey} + {c.bufferKey}
    ensures Run(Narrow(), true, Initial(30, "run"), [x] + [y] + [z] + [last]).emitted == []
    ensures Run(Narrow(), false, Initial(30, "run"), [x] + [y] + [z] + [last]).emitted != []
  {
    var a, b, c, d := Stored(x.frame), Stored(y.frame), Stored(z.frame), Stored(last.frame);
    var before, keys := [x] + [y] + [z], {a.bufferKey} + {b.bufferKey} + {c.bufferKey};
    hide *;
    AllPlainOf(a, b);
    AllPlainOf(c, c);
    RewindBegins(true, x, y, z);
    RewindBegins(false, x, y, z);
    assert a in [a, b];
    RightMatches(false, before, keys, [a, b], [c], 3, last, a);
    RightApart(true, before, keys, [b], [c], 3, last);
    SilentSays(Narrow(), true, before + [last], keys + {d.bufferKey}, Left([b], [b], [c] + [d], 0, true),
               Left([c] + [d], [b], [c] + [d], 0, true), 4);
  }

  /** Without the order check, which legacy frames pass, pruning shows: a last frame of time 5
      makes a set with the first one only if that was not pruned. */
  lemma {:induction false} RewindShows()
    ensures var inputs := [
              Input(PlainFrame("left", "a", 5), 1, "w"), Input(PlainFrame("left", "b", 20), 2, "x"),
              Input(PlainFrame("right", "c", 30), 3, "y"), Input(PlainFrame("right", "d", 5), 4, "z")];
            && Run(Narrow(), true, Initial(30, "run"), inputs).emitted == []
            && Run(Narrow(), false, Initial(30, "run"), inputs).emitted != []
  {
    var x, y := Input(PlainFrame("left", "a", 5), 1, "w"), Input(PlainFrame("left", "b", 20), 2, "x");
    var z, last := Input(PlainFrame("right", "c", 30), 3, "y"), Input(PlainFrame("right", "d", 5), 4, "z");
    hide *;
    PlainStored("left", "a", 5);
    PlainStored("left", "b", 20);
    PlainStored("right", "c", 30);
    PlainStored("right", "d", 5);
    KeyOf("a", "b");
    KeyOf("c", "a");
    KeyOf("c", "b");
    KeyOf("d", "a");
    KeyOf("d", "b");
    KeyOf("d", "c");
    RewindDiffers(x, y, z, last);
    assert [x] + [y] + [z] + [last] == [x, y, z, last];
  }
}

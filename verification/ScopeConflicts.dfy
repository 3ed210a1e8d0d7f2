/** What a scope conflict leaves behind: frames that fit the window but make no set, and that
    block the matcher until they are pruned. */
module ScopeConflicts {
  import opened Wrappers
  import opened SyncModels
  import opened BufferSpec
  import opened MinSpanSweep
  import opened IdentityResolution
  import opened SyncSpec
  import opened Quiescence
  import opened TwoCameras

  /** Frames of two tenants fit each other in time but not in scope. */
  predicate Foreign(f: SyncFrame, g: SyncFrame)
  {
    && f.deviceId != g.deviceId && f.timestampMs == g.timestampMs
    && f.IdentityComplete() && g.IdentityComplete()
    && FullScope(f.scope) && FullScope(g.scope) && f.scope.tenantId != g.scope.tenantId
  }

  lemma ForeignConflict(f: SyncFrame, g: SyncFrame)
    requires Foreign(f, g)
    ensures Resolve([f, g]).ScopeConflict?
  {
    var members := [f, g];
    assert AnyScope(members[0].scope);
    assert GroupOf(members[1].scope) != GroupOf(members[0].scope);
  }

  lemma ForeignFacts(f: SyncFrame, g: SyncFrame)
    requires Foreign(f, g)
    ensures f.deviceId != g.deviceId && f.timestampMs == g.timestampMs
  {
  }

  /** The frame is older than all others. */
  predicate IsOldest(frames: seq<SyncFrame>, f: SyncFrame)
  {
    f in frames && forall x | x in frames :: x == f || f.timestampMs < x.timestampMs
  }

  /** As long as the oldest frames of both cameras fit each other, they are the candidate. */
  lemma ConflictMisses(
      config: Config, state: SyncState, keys: set<string>, left: seq<SyncFrame>, right: seq<SyncFrame>, n: nat,
      frame: SyncFrame, f: SyncFrame, g: SyncFrame)
    requires View(state.buffers, keys, left, right, n) && Admits(config, keys, left, right, n, frame)
    requires IsOldest(More(left, frame, "left"), f) && IsOldest(More(right, frame, "right"), g) && Foreign(f, g)
    ensures Misses(config, state.(buffers := state.buffers.AddFrame(frame)))
  {
    hide *;
    StoresView(config, state, keys, left, right, n, frame);
    AdmitsSays(config, keys, left, right, n, frame);
    ForeignFacts(f, g);
    ForeignConflict(f, g);
    var added := state.(buffers := state.buffers.AddFrame(frame));
    var l, r := More(left, frame, "left"), More(right, frame, "right");
    OldestFits(l, r, f, g);
    SomePair(config, added, l, r, f, g);
    var best := Best(config, added).value;
    OldestWins(l, r, f, g, best["left"], best["right"]);
    MissesByConflict(config, added, f, g);
  }

  lemma OldestFits(l: seq<SyncFrame>, r: seq<SyncFrame>, f: SyncFrame, g: SyncFrame)
    requires IsOldest(l, f) && IsOldest(r, g) && f.timestampMs == g.timestampMs
    ensures f in l && g in r && Gap(f, g) == 0
  {
  }

  lemma OldestWins(
      l: seq<SyncFrame>, r: seq<SyncFrame>, f: SyncFrame, g: SyncFrame, x: SyncFrame, y: SyncFrame)
    requires IsOldest(l, f) && IsOldest(r, g) && f.timestampMs == g.timestampMs && x in l && y in r
    requires Gap(x, y) < Gap(f, g) || (Gap(x, y) == Gap(f, g) && First(x, y) <= First(f, g))
    ensures x == f && y == g
  {
  }

  lemma MissesByConflict(config: Config, state: SyncState, f: SyncFrame, g: SyncFrame)
    requires config.cameras != [] && Best(config, state).Some?
    requires Members(config.cameras, Best(config, state).value) == [f, g] && Resolve([f, g]).ScopeConflict?
    ensures Misses(config, state)
  {
    hide Best, Resolve, Members;
  }

  lemma SilentConflict(
      config: Config, pruning: bool, inputs: seq<Input>, keys: set<string>, left: seq<SyncFrame>,
      right: seq<SyncFrame>, n: nat, input: Input, f: SyncFrame, g: SyncFrame)
    requires Silent(config, pruning, inputs, keys, left, right, n)
    requires Admits(config, keys, left, right, n, Stored(input.frame)) && Foreign(f, g)
    requires IsOldest(More(left, Stored(input.frame), "left"), f)
    requires IsOldest(More(right, Stored(input.frame), "right"), g)
    ensures var s, w := Stored(input.frame), config.windowMs;
            var l, r := More(left, s, "left"), More(right, s, "right");
            Silent(config, pruning, inputs + [input], keys + {s.bufferKey}, Left(l, l, r, w, pruning),
                   Left(r, l, r, w, pruning), n + 1)
  {
    hide Run, View, Admits, More, Misses, Stored, BufferState.AddFrame, Left, IsOldest, Foreign;
    ConflictMisses(config, Run(config, pruning, Initial(30, "run"), inputs).state, keys, left, right, n,
                   Stored(input.frame), f, g);
    SilentNext(config, pruning, inputs, keys, left, right, n, input);
  }

  function Wide(): Config
  {
    Config(["left", "right"], 50, 10)
  }

  function TenantFrame(deviceId: string, uid: string, timestampMs: int, sequence: int, tenantId: string): SyncFrame
  {
    SyncFrame(
      "", deviceId, timestampMs, Some(sequence), SourceIdentity(Some("session"), Some(deviceId)), Some(uid),
      Some("digest"), "image", V2, None,
      Scope(Some(tenantId), Some("site"), Some("capture"), Some("job"), Some("profile"), Some("subject"),
            Some("token"), Some(deviceId), None),
      Archive(None, None, ARCHIVE_PENDING, None))
  }

  /** A stored frame of the kind above. */
  predicate IsTenantFrame(
      f: SyncFrame, deviceId: string, uid: string, timestampMs: int, sequence: int, tenantId: string)
  {
    && uid != "" && deviceId != "" && tenantId != ""
    && f == TenantFrame(deviceId, uid, timestampMs, sequence, tenantId).(bufferKey := "source:" + uid)
  }

  lemma TenantStored(deviceId: string, uid: string, timestampMs: int, sequence: int, tenantId: string)
    requires uid != "" && deviceId != "" && tenantId != ""
    ensures IsTenantFrame(
              Stored(TenantFrame(deviceId, uid, timestampMs, sequence, tenantId)), deviceId, uid, timestampMs,
              sequence, tenantId)
  {
  }

  lemma TenantsConflict(f: SyncFrame, g: SyncFrame, u: string, v: string, t: int, i: int, j: int)
    requires IsTenantFrame(f, "left", u, t, i, "one") && IsTenantFrame(g, "right", v, t, j, "two")
    ensures Foreign(f, g)
  {
    assert "one"[0] != "two"[0] && "left"[0] != "right"[0];
  }

  lemma TenantAgrees(f: SyncFrame, g: SyncFrame, u: string, v: string, s: int, t: int, i: int, j: int)
    requires IsTenantFrame(f, "left", u, s, i, "one") && IsTenantFrame(g, "right", v, t, j, "one")
    ensures !Resolve([f, g]).ScopeConflict?
  {
    var members := [f, g];
    assert "left"[0] != "right"[0];
    assert members[0] == f && members[1] == g;
    assert OneGroup(members) && CamerasDiffer(members) && !AnyClaim(members);
  }

  /** Both cameras send at 0 for different tenants, then at 1000 for the same one. */
  predicate Blocked(a: SyncFrame, b: SyncFrame, c: SyncFrame, d: SyncFrame, e: SyncFrame)
  {
    && IsTenantFrame(a, "left", "a", 0, 1, "one") && IsTenantFrame(b, "right", "b", 0, 1, "two")
    && IsTenantFrame(c, "left", "c", 1000, 2, "one") && IsTenantFrame(d, "right", "d", 1000, 2, "one")
    && IsTenantFrame(e, "left", "e", 1001, 3, "one")
  }

  lemma BlockedAdmits(a: SyncFrame, b: SyncFrame, c: SyncFrame, d: SyncFrame, e: SyncFrame)
    requires Blocked(a, b, c, d, e)
    ensures Admits(Wide(), {}, [], [], 0, a) && Admits(Wide(), {"source:a"}, [a], [], 1, b)
    ensures Admits(Wide(), {"source:a"} + {"source:b"}, [a], [b], 2, c)
    ensures Admits(Wide(), {"source:a"} + {"source:b"} + {"source:c"}, [a, c], [b], 3, d)
  {
    assert "left"[0] != "right"[0];
    KeyOf("a", "b");
    KeyOf("a", "c");
    KeyOf("a", "d");
    KeyOf("b", "c");
    KeyOf("b", "d");
    KeyOf("c", "d");
  }

  lemma BlockedLast(a: SyncFrame, b: SyncFrame, c: SyncFrame, d: SyncFrame, e: SyncFrame)
    requires Blocked(a, b, c, d, e)
    ensures var keys := {"source:a"} + {"source:b"} + {"source:c"} + {"source:d"};
            Admits(Wide(), keys, [a, c], [b, d], 4, e) && Admits(Wide(), keys, [c], [d], 4, e)
  {
    assert "left"[0] != "right"[0];
    KeyOf("a", "e");
    KeyOf("b", "e");
    KeyOf("c", "e");
    KeyOf("d", "e");
  }

  lemma BlockedFacts(a: SyncFrame, b: SyncFrame, c: SyncFrame, d: SyncFrame, e: SyncFrame)
    requires Blocked(a, b, c, d, e)
    ensures a.deviceId == "left" && b.deviceId == "right" && c.deviceId == "left" && d.deviceId == "right"
    ensures e.deviceId == "left" && a.bufferKey == "source:a" && b.bufferKey == "source:b"
    ensures c.bufferKey == "source:c" && d.bufferKey == "source:d"
    ensures a.timestampMs == 0 && b.timestampMs == 0 && c.timestampMs == 1000 && d.timestampMs == 1000
    ensures e.timestampMs == 1001 && Foreign(a, b)
    ensures !Resolve([c, d]).ScopeConflict? && !Resolve([e, d]).ScopeConflict?
  {
    hide IsTenantFrame, Resolve, Foreign;
    TenantsConflict(a, b, "a", "b", 0, 1, 1);
    TenantAgrees(c, d, "c", "d", 1000, 1000, 2, 2);
    TenantAgrees(e, d, "e", "d", 1001, 1000, 3, 2);
    TenantSays(a, "left", "a", 0, 1, "one");
    TenantSays(b, "right", "b", 0, 1, "two");
    TenantSays(c, "left", "c", 1000, 2, "one");
    TenantSays(d, "right", "d", 1000, 2, "one");
    TenantSays(e, "left", "e", 1001, 3, "one");
  }

  lemma TenantSays(f: SyncFrame, deviceId: string, uid: string, timestampMs: int, sequence: int, tenantId: string)
    requires IsTenantFrame(f, deviceId, uid, timestampMs, sequence, tenantId)
    ensures f.deviceId == deviceId && f.timestampMs == timestampMs && f.bufferKey == "source:" + uid
  {
  }

  /** What pruning leaves of two times, 1000 apart. */
  lemma KeptLater(a: SyncFrame, b: SyncFrame, c: SyncFrame, d: SyncFrame, pruning: bool)
    requires a.timestampMs == 0 && b.timestampMs == 0 && c.timestampMs == 1000 && d.timestampMs == 1000
    ensures Left([a], [a], [], 50, pruning) == [a] && Left([], [a], [], 50, pruning) == []
    ensures Left([a], [a], [b], 50, pruning) == [a] && Left([b], [a], [b], 50, pruning) == [b]
    ensures Left([a, c], [a, c], [b], 50, pruning) == [a, c] && Left([b], [a, c], [b], 50, pruning) == [b]
    ensures Left([a, c], [a, c], [b, d], 50, pruning) == if pruning then [c] else [a, c]
    ensures Left([b, d], [a, c], [b, d], 50, pruning) == if pruning then [d] else [b, d]
  {
    OneNotBefore(a, -50);
    OneNotBefore(b, -50);
    TwoNotBefore(a, c, -50);
    TwoNotBefore(a, c, 950);
    TwoNotBefore(b, d, 950);
  }

  lemma OneNotBefore(f: SyncFrame, cutoffMs: int)
    ensures NotBefore([f], cutoffMs) == if f.timestampMs >= cutoffMs then [f] else []
  {
    assert [f][1..] == [];
  }

  lemma TwoNotBefore(f: SyncFrame, g: SyncFrame, cutoffMs: int)
    ensures NotBefore([f, g], cutoffMs)
            == (if f.timestampMs >= cutoffMs then [f] else []) + (if g.timestampMs >= cutoffMs then [g] else [])
  {
    assert [f, g][1..] == [g];
    OneNotBefore(g, cutoffMs);
  }

  lemma OldestOf(f: SyncFrame, g: SyncFrame, h: SyncFrame)
    requires f.timestampMs < g.timestampMs && f.timestampMs < h.timestampMs
    ensures IsOldest([f], f) && IsOldest([f, g], f) && IsOldest([f, g, h], f)
  {
  }

  /** One more frame of a camera while the conflict lasts; `l` and `r` are then held. */
  lemma ConflictStays(
      pruning: bool, inputs: seq<Input>, keys: set<string>, left: seq<SyncFrame>, right: seq<SyncFrame>, n: nat,
      input: Input, f: SyncFrame, g: SyncFrame, l: seq<SyncFrame>, r: seq<SyncFrame>)
    requires Silent(Wide(), pruning, inputs, keys, left, right, n)
    requires Admits(Wide(), keys, left, right, n, Stored(input.frame)) && Foreign(f, g)
    requires IsOldest(l, f) && IsOldest(r, g)
    requires var s := Stored(input.frame);
             (s.deviceId == "left" && l == left + [s] && r == right)
             || (s.deviceId == "right" && l == left && r == right + [s])
    ensures Silent(Wide(), pruning, inputs + [input], keys + {Stored(input.frame).bufferKey},
                   Left(l, l, r, 50, pruning), Left(r, l, r, 50, pruning), n + 1)
  {
    assert Wide().windowMs == 50;
    hide *;
    MoreIs(left, right, Stored(input.frame));
    SilentConflict(Wide(), pruning, inputs, keys, left, right, n, input, f, g);
  }

  lemma FirstLeft(pruning: bool, v: Input)
    requires Admits(Wide(), {}, [], [], 0, Stored(v.frame)) && Stored(v.frame).deviceId == "left"
    ensures Silent(Wide(), pruning, [v], {Stored(v.frame).bufferKey}, [Stored(v.frame)], [], 1)
  {
    var a := Stored(v.frame);
    assert Left([a], [a], [], Wide().windowMs, pruning) == [a] && Left([], [a], [], Wide().windowMs, pruning) == [];
    hide *;
    MoreIs([], [], a);
    assert [] + [a] == [a] && [] + [v] == [v] && {} + {a.bufferKey} == {a.bufferKey};
    Begin(Wide(), pruning);
    SilentApart(Wide(), pruning, [], {}, [], [], 0, v);
  }

  /** The conflict at 0. */
  lemma BlockedPair(pruning: bool, v: Input, w: Input, c: SyncFrame, d: SyncFrame, e: SyncFrame)
    requires Blocked(Stored(v.frame), Stored(w.frame), c, d, e)
    ensures var a, b := Stored(v.frame), Stored(w.frame);
            Silent(Wide(), pruning, [v] + [w], {"source:a"} + {"source:b"}, [a], [b], 2)
  {
    var a, b := Stored(v.frame), Stored(w.frame);
    hide *;
    BlockedFacts(a, b, c, d, e);
    BlockedAdmits(a, b, c, d, e);
    FirstLeft(pruning, v);
    OldestOf(a, c, e);
    OldestOf(b, d, e);
    KeptLater(a, b, c, d, pruning);
    assert [] + [b] == [b];
    ConflictStays(pruning, [v], {"source:a"}, [a], [], 1, w, a, b, [a], [b]);
  }

  /** The conflict at 0 and the frames at 1000. */
  lemma BlockedBegins(pruning: bool, v: Input, w: Input, x: Input, y: Input, e: SyncFrame)
    requires Blocked(Stored(v.frame), Stored(w.frame), Stored(x.frame), Stored(y.frame), e)
    ensures var a, b, c, d := Stored(v.frame), Stored(w.frame), Stored(x.frame), Stored(y.frame);
            Silent(Wide(), pruning, [v] + [w] + [x] + [y], {"source:a"} + {"source:b"} + {"source:c"} + {"source:d"},
                   if pruning then [c] else [a, c], if pruning then [d] else [b, d], 4)
  {
    var a, b, c, d := Stored(v.frame), Stored(w.frame), Stored(x.frame), Stored(y.frame);
    hide *;
    BlockedPair(pruning, v, w, c, d, e);
    BlockedFacts(a, b, c, d, e);
    BlockedAdmits(a, b, c, d, e);
    OldestOf(a, c, e);
    OldestOf(b, d, e);
    KeptLater(a, b, c, d, pruning);
    assert [a] + [c] == [a, c] && [b] + [d] == [b, d];
    ConflictStays(pruning, [v] + [w], {"source:a"} + {"source:b"}, [a], [b], 2, x, a, b, [a, c], [b]);
    ConflictStays(pruning, [v] + [w] + [x], {"source:a"} + {"source:b"} + {"source:c"}, [a, c], [b], 3, y, a, b,
                  [a, c], [b, d]);
  }

  /** A frame of the left camera with which the two held frames make sets. */
  lemma LeftMakesSet(
      pruning: bool, inputs: seq<Input>, keys: set<string>, c: SyncFrame, d: SyncFrame, n: nat, z: Input)
    requires Silent(Wide(), pruning, inputs, keys, [c], [d], n) && Admits(Wide(), keys, [c], [d], n, Stored(z.frame))
    requires Stored(z.frame).deviceId == "left" && c.timestampMs == d.timestampMs
    requires !Resolve([c, d]).ScopeConflict? && !Resolve([Stored(z.frame), d]).ScopeConflict?
    ensures Run(Wide(), pruning, Initial(30, "run"), inputs + [z]).emitted != []
  {
    var e := Stored(z.frame);
    assert Gap(c, d) <= Wide().windowMs;
    hide *;
    MoreIs([c], [d], e);
    NoneConflicts(c, e, d);
    LastEmits(Wide(), pruning, inputs, keys, [c], [d], n, z, c, d);
  }

  lemma NoneConflicts(c: SyncFrame, e: SyncFrame, d: SyncFrame)
    requires !Resolve([c, d]).ScopeConflict? && !Resolve([e, d]).ScopeConflict?
    ensures c in [c] + [e] && d in [d]
    ensures forall x, y | x in [c] + [e] && y in [d] :: !Resolve([x, y]).ScopeConflict?
  {
    hide *;
    assert ([c] + [e])[0] == c && [d][0] == d;
    forall x, y | x in [c] + [e] && y in [d] ensures !Resolve([x, y]).ScopeConflict? {
      assert y == d && (x == c || x == e);
    }
  }

  lemma BlockedEnds(v: Input, w: Input, x: Input, y: Input, z: Input)
    requires Blocked(Stored(v.frame), Stored(w.frame), Stored(x.frame), Stored(y.frame), Stored(z.frame))
    ensures Run(Wide(), true, Initial(30, "run"), [v] + [w] + [x] + [y] + [z]).emitted != []
  {
    var a, b, c, d, e := Stored(v.frame), Stored(w.frame), Stored(x.frame), Stored(y.frame), Stored(z.frame);
    hide *;
    BlockedFacts(a, b, c, d, e);
    BlockedBegins(true, v, w, x, y, e);
    BlockedLast(a, b, c, d, e);
    LeftMakesSet(true, [v] + [w] + [x] + [y], {"source:a"} + {"source:b"} + {"source:c"} + {"source:d"}, c, d, 4, z);
  }

  lemma BlockedForGood(v: Input, w: Input, x: Input, y: Input, z: Input)
    requires Blocked(Stored(v.frame), Stored(w.frame), Stored(x.frame), Stored(y.frame), Stored(z.frame))
    ensures Run(Wide(), false, Initial(30, "run"), [v] + [w] + [x] + [y] + [z]).emitted == []
  {
    var a, b, c, d, e := Stored(v.frame), Stored(w.frame), Stored(x.frame), Stored(y.frame), Stored(z.frame);
    var keys := {"source:a"} + {"source:b"} + {"source:c"} + {"source:d"};
    hide *;
    BlockedBegins(false, v, w, x, y, e);
    BlockedFacts(a, b, c, d, e);
    BlockedLast(a, b, c, d, e);
    OldestOf(a, c, e);
    OldestOf(b, d, e);
    assert [a, c] + [e] == [a, c, e];
    ConflictStays(false, [v] + [w] + [x] + [y], keys, [a, c], [b, d], 4, z, a, b, [a, c, e], [b, d]);
    SilentSays(Wide(), false, [v] + [w] + [x] + [y] + [z], keys + {e.bufferKey},
               Left([a, c, e], [a, c, e], [b, d], 50, false), Left([b, d], [a, c, e], [b, d], 50, false), 5);
  }

  /** After a conflict pruning shows: without it the conflicting pair stays the earliest of
      least span and nothing is ever emitted; with it the pair goes and a set is emitted. */
  lemma {:induction false} ConflictShows()
    ensures var inputs := [
              Input(TenantFrame("left", "a", 0, 1, "one"), 1, "v"),
              Input(TenantFrame("right", "b", 0, 1, "two"), 2, "w"),
              Input(TenantFrame("left", "c", 1000, 2, "one"), 1001, "x"),
              Input(TenantFrame("right", "d", 1000, 2, "one"), 1002, "y"),
              Input(TenantFrame("left", "e", 1001, 3, "one"), 1003, "z")];
            && Run(Wide(), true, Initial(30, "run"), inputs).emitted != []
            && Run(Wide(), false, Initial(30, "run"), inputs).emitted == []
  {
    var v, w := Input(TenantFrame("left", "a", 0, 1, "one"), 1, "v"),
                Input(TenantFrame("right", "b", 0, 1, "two"), 2, "w");
    var x, y := Input(TenantFrame("left", "c", 1000, 2, "one"), 1001, "x"),
                Input(TenantFrame("right", "d", 1000, 2, "one"), 1002, "y");
    var z := Input(TenantFrame("left", "e", 1001, 3, "one"), 1003, "z");
    hide Run, Stored, TenantFrame, IsTenantFrame;
    TenantStored("left", "a", 0, 1, "one");
    TenantStored("right", "b", 0, 1, "two");
    TenantStored("left", "c", 1000, 2, "one");
    TenantStored("right", "d", 1000, 2, "one");
    TenantStored("left", "e", 1001, 3, "one");
    BlockedEnds(v, w, x, y, z);
    BlockedForGood(v, w, x, y, z);
    assert [v] + [w] + [x] + [y] + [z] == [v, w, x, y, z];
  }

  lemma NothingFits(config: Config, buffers: BufferState, d: string)
    requires d in config.cameras && buffers.Frames(d) == []
    ensures Quiescent(buffers, config.cameras, config.windowMs)
  {
    forall pick ensures !Fits(Held(buffers, config.cameras), pick, config.windowMs) {
      assert d in Held(buffers, config.cameras);
    }
  }

  /** The buffers hold a pair that fits. */
  lemma PairLeft(pruning: bool, inputs: seq<Input>, keys: set<string>, a: SyncFrame, b: SyncFrame, n: nat)
    requires Silent(Wide(), pruning, inputs, keys, [a], [b], n) && a.timestampMs == b.timestampMs
    ensures !Quiescent(Run(Wide(), pruning, Initial(30, "run"), inputs).state.buffers, ["left", "right"], 50)
  {
    var buffers := Run(Wide(), pruning, Initial(30, "run"), inputs).state.buffers;
    assert buffers.Frames("left") == [a] && buffers.Frames("right") == [b];
    hide Run, BufferState.Frames, Silent, Span, Held;
    PairFits(buffers, [a], [b], a, b);
    PairSpan(a, b);
    assert Fits(Held(buffers, ["left", "right"]), Pair(a, b), 50);
  }

  lemma NoneLeft(pruning: bool, v: Input)
    requires Silent(Wide(), pruning, [v], {Stored(v.frame).bufferKey}, [Stored(v.frame)], [], 1)
    ensures NoConflicts(Wide(), pruning, Initial(30, "run"), [v])
  {
    var start := Initial(30, "run");
    assert [v][1..] == [];
    InitiallyQuiescent(Wide(), 30);
    QuiescentUnlessConflict(Wide(), pruning, start, v);
    hide HandleFrame, Quiescent, ConflictArises;
    var after := HandleFrame(Wide(), pruning, start, v).state;
    assert Run(Wide(), pruning, start, [v]).state == after;
    assert after.buffers.Frames("right") == [];
    assert Wide().cameras[1] == "right";
    NothingFits(Wide(), after.buffers, "right");
  }

  lemma AreBlocked(a: SyncFrame, b: SyncFrame, c: SyncFrame, d: SyncFrame, e: SyncFrame)
    requires IsTenantFrame(a, "left", "a", 0, 1, "one") && IsTenantFrame(b, "right", "b", 0, 1, "two")
    requires IsTenantFrame(c, "left", "c", 1000, 2, "one") && IsTenantFrame(d, "right", "d", 1000, 2, "one")
    requires IsTenantFrame(e, "left", "e", 1001, 3, "one")
    ensures Blocked(a, b, c, d, e)
  {
  }

  lemma PairStays(pruning: bool, v: Input, w: Input, c: SyncFrame, d: SyncFrame, e: SyncFrame)
    requires Blocked(Stored(v.frame), Stored(w.frame), c, d, e)
    ensures var start := Initial(30, "run");
            && NoConflicts(Wide(), pruning, start, [v])
            && ConflictArises(Wide(), Run(Wide(), pruning, start, [v]).state, w)
            && Run(Wide(), pruning, start, [v, w]).emitted == []
            && !Quiescent(Run(Wide(), pruning, start, [v, w]).state.buffers, ["left", "right"], 50)
  {
    var a, b := Stored(v.frame), Stored(w.frame);
    assert Wide().cameras == ["left", "right"] && Wide().windowMs == 50;
    hide *;
    BlockedFacts(a, b, c, d, e);
    BlockedAdmits(a, b, c, d, e);
    FirstLeft(pruning, v);
    NoneLeft(pruning, v);
    BlockedPair(pruning, v, w, c, d, e);
    assert [v] + [w] == [v, w];
    PairLeft(pruning, [v, w], {"source:a"} + {"source:b"}, a, b, 2);
    SilentSays(Wide(), pruning, [v, w], {"source:a"} + {"source:b"}, [a], [b], 2);
    RunsStayQuiescent(Wide(), pruning, 30, "run", [v], w);
    RunLast(Wide(), pruning, Initial(30, "run"), [v], w);
  }

  /** Two cameras whose tenants differ: the second frame finds a candidate that is not emitted,
      and both frames stay although they fit the window. */
  lemma {:induction false} ConflictLeavesFit(pruning: bool)
    ensures var v := Input(TenantFrame("left", "a", 0, 1, "one"), 1, "v");
            var w := Input(TenantFrame("right", "b", 0, 1, "two"), 2, "w");
            var start := Initial(30, "run");
            && NoConflicts(Wide(), pruning, start, [v])
            && ConflictArises(Wide(), Run(Wide(), pruning, start, [v]).state, w)
            && Run(Wide(), pruning, start, [v, w]).emitted == []
            && !Quiescent(Run(Wide(), pruning, start, [v, w]).state.buffers, ["left", "right"], 50)
  {
    var v, w := Input(TenantFrame("left", "a", 0, 1, "one"), 1, "v"),
                Input(TenantFrame("right", "b", 0, 1, "two"), 2, "w");
    var a, b := Stored(v.frame), Stored(w.frame);
    var c, d := Stored(TenantFrame("left", "c", 1000, 2, "one")), Stored(TenantFrame("right", "d", 1000, 2, "one"));
    var e := Stored(TenantFrame("left", "e", 1001, 3, "one"));
    assert Wide().cameras == ["left", "right"] && Wide().windowMs == 50;
    hide *;
    TenantStored("left", "a", 0, 1, "one");
    TenantStored("right", "b", 0, 1, "two");
    TenantStored("left", "c", 1000, 2, "one");
    TenantStored("right", "d", 1000, 2, "one");
    TenantStored("left", "e", 1001, 3, "one");
    AreBlocked(a, b, c, d, e);
    PairStays(pruning, v, w, c, d, e);
  }
}

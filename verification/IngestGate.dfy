/** The ingest gate: which devices are streaming, when the collection may start, and which
    capture session owns it. Every operation holds the lock, so it is one step. */
module IngestGate {
  import opened Wrappers

  datatype GateState = GateState(
    expectedCount: Option<nat>,
    expectedIds: set<string>,
    gateOpen: bool,
    observed: set<string>,
    active: set<string>,
    counts: map<string, int>,
    latest: map<string, int>,
    gateStartMs: Option<int>,
    firstAcceptedMs: Option<int>,
    preGateDropped: nat,
    staleDropped: nat,
    started: bool,
    stopped: bool,
    owner: Option<string>,
    authorizedStreams: int)
  {
    predicate GateEnabled()
    {
      expectedCount.Some?
    }

    /** Every expected device, or enough devices, are streaming. */
    predicate Quorum()
    {
      if expectedIds != {} then expectedIds <= active
      else |active| >= (if expectedCount.Some? then expectedCount.value else 0)
    }

    /** A new collection: everything but the configuration and the ownership starts over. */
    function Reset(): GateState
    {
      this.(
        gateOpen := !GateEnabled(), observed := {}, active := {}, counts := map[], latest := map[],
        gateStartMs := None, firstAcceptedMs := None, preGateDropped := 0, staleDropped := 0,
        started := !GateEnabled(), stopped := false)
    }

    predicate MayAcquire(session: string)
    {
      owner.None? || owner.value == session || authorizedStreams <= 0
    }

    /** The collection passes to another session only when no authorized stream is left. */
    function Acquire(session: string): GateState
    {
      if !MayAcquire(session) then this
      else
        var owned := if owner.Some? && owner.value != session then Reset() else this;
        owned.(owner := Some(session), authorizedStreams := authorizedStreams + 1)
    }

    function Release(session: string): GateState
    {
      if owner != Some(session) then this
      else this.(authorizedStreams := if authorizedStreams - 1 > 0 then authorizedStreams - 1 else 0)
    }

    function CountOf(device: string): int
    {
      if device in counts then counts[device] else 0
    }

    function MarkActive(device: string): GateState
    {
      this.(
        observed := observed + {device},
        counts := counts[device := CountOf(device) + 1],
        active := active + {device})
    }

    function Record(device: string, timestampMs: int): GateState
    {
      if device !in latest || timestampMs > latest[device] then this.(latest := latest[device := timestampMs])
      else this
    }

    /** The devices whose timestamps fix the start of the gate. */
    function Clocks(): set<string>
    {
      set d | d in (if expectedIds != {} then expectedIds else active) && d in latest
    }

    /** Opening fixes the start at the latest timestamp seen, once. */
    ghost function OpenGate(): GateState
    {
      var ready := this.(gateOpen := true, started := true);
      if gateStartMs.Some? || Clocks() == {} then ready
      else ready.(gateStartMs := Some(LatestOf(latest, Clocks())))
    }

    /** Whether a frame is let in when it asks. */
    predicate LetsIn(device: string, timestampMs: int)
    {
      && !stopped
      && (expectedIds != {} ==> device in expectedIds)
      && gateOpen
      && !(GateEnabled() && gateStartMs.Some? && timestampMs < gateStartMs.value)
    }

    /** A frame asking to be let in. The frame that opens the gate is itself dropped. */
    ghost function Ask(device: string, timestampMs: int): GateState
    {
      if stopped || (expectedIds != {} && device !in expectedIds) then this
      else if gateOpen then
        if !LetsIn(device, timestampMs) then this.(staleDropped := staleDropped + 1)
        else if firstAcceptedMs.None? then this.(firstAcceptedMs := Some(timestampMs))
        else this
      else
        var ready := if Quorum() then OpenGate() else this;
        ready.(preGateDropped := preGateDropped + 1)
    }

    /** The devices of a closing stream that no other stream keeps active. */
    function Leaving(devices: set<string>): set<string>
    {
      set d | d in devices && CountOf(d) <= 1
    }

    function WithoutStreams(devices: set<string>): GateState
    {
      this.(
        active := active - Leaving(devices),
        counts := map d | d in counts && d !in Leaving(devices) :: if d in devices then counts[d] - 1 else counts[d])
    }

    lemma NoDeviceLess()
      ensures WithoutStreams({}).active == active && WithoutStreams({}).counts == counts
    {
      assert Leaving({}) == {};
    }

    lemma OneDeviceLess(devices: set<string>, d: string)
      requires d !in devices
      ensures var before, after := WithoutStreams(devices), WithoutStreams(devices + {d});
              && before.CountOf(d) == CountOf(d)
              && (CountOf(d) > 1 ==>
                    after.active == before.active && after.counts == before.counts[d := CountOf(d) - 1])
              && (CountOf(d) <= 1 ==> after.active == before.active - {d} && after.counts == before.counts - {d})
    {
      var before, after := WithoutStreams(devices), WithoutStreams(devices + {d});
      if CountOf(d) > 1 {
        assert Leaving(devices + {d}) == Leaving(devices);
      } else {
        assert Leaving(devices + {d}) == Leaving(devices) + {d};
      }
      assert forall e | e in counts && e != d :: (e in devices + {d} <==> e in devices);
    }

    /** A started collection that loses its quorum stops. */
    function Close(devices: set<string>): GateState
    {
      if devices == {} then this
      else
        var left := WithoutStreams(devices);
        if started && !stopped && GateEnabled() && !left.Quorum() then left.(gateOpen := false, stopped := true)
        else left
    }
  }

  /** The greatest of the given clocks. */
  ghost function LatestOf(latest: map<string, int>, devices: set<string>): int
    requires devices != {} && devices <= latest.Keys
  {
    var d :| d in devices;
    if devices == {d} then latest[d]
    else
      assert devices == {d} + (devices - {d});
      var rest := LatestOf(latest, devices - {d});
      if latest[d] >= rest then latest[d] else rest
  }

  lemma {:induction false} LatestOfSays(latest: map<string, int>, devices: set<string>)
    requires devices != {} && devices <= latest.Keys
    ensures forall d | d in devices :: latest[d] <= LatestOf(latest, devices)
    ensures exists d | d in devices :: latest[d] == LatestOf(latest, devices)
  {
    var d :| d in devices && LatestOf(latest, devices) ==
      if devices == {d} then latest[d]
      else
        var rest := LatestOf(latest, devices - {d});
        if latest[d] >= rest then latest[d] else rest;
    if devices != {d} {
      LatestOfSays(latest, devices - {d});
    }
  }

  function Configured(expectedDeviceCount: Option<nat>, expectedDeviceIds: set<string>): GateState
  {
    var count :=
      if expectedDeviceIds != {} then (if |expectedDeviceIds| > 1 then Some(|expectedDeviceIds|) else None)
      else if expectedDeviceCount.Some? && expectedDeviceCount.value > 1 then expectedDeviceCount
      else None;
    GateState(
      count, expectedDeviceIds, count.None?, {}, {}, map[], map[], None, None, 0, 0, count.None?, false, None, 0)
  }

  /** One stream less for each of the devices. */
  method OneStreamLess(before: GateState, devices: set<string>) returns (counts: map<string, int>, active: set<string>)
    ensures counts == before.WithoutStreams(devices).counts && active == before.WithoutStreams(devices).active
  {
    counts, active := before.counts, before.active;
    var rest := devices;
    ghost var dropped: set<string> := {};
    before.NoDeviceLess();
    while rest != {}
      invariant rest <= devices && dropped == devices - rest
      invariant active == before.WithoutStreams(dropped).active
      invariant counts == before.WithoutStreams(dropped).counts
      decreases |rest|
    {
      hide GateState.WithoutStreams;
      var d :| d in rest;
      before.OneDeviceLess(dropped, d);
      rest := rest - {d};
      dropped := dropped + {d};
      var count := (if d in counts then counts[d] else 0) - 1;
      if count > 0 {
        counts := counts[d := count];
      } else {
        counts := counts - {d};
        active := active - {d};
      }
    }
    assert dropped == devices;
  }

  class GrpcIngestService {
    var expectedDeviceCount: Option<nat>
    var expectedDeviceIds: set<string>
    var gateOpen: bool
    var observedDeviceIds: set<string>
    var activeDeviceIds: set<string>
    var activeDeviceStreamCounts: map<string, int>
    var latestDeviceTimestampMs: map<string, int>
    var gateStartTimestampMs: Option<int>
    var firstAcceptedTimestampMs: Option<int>
    var preGateDroppedCount: nat
    var staleAfterGateDroppedCount: nat
    var collectionStarted: bool
    var collectionStopped: bool
    var collectionCaptureSessionId: Option<string>
    var activeAuthorizedStreamCount: int

    function State(): GateState
      reads this
    {
      GateState(
        expectedDeviceCount, expectedDeviceIds, gateOpen, observedDeviceIds, activeDeviceIds, activeDeviceStreamCounts,
        latestDeviceTimestampMs, gateStartTimestampMs, firstAcceptedTimestampMs, preGateDroppedCount,
        staleAfterGateDroppedCount, collectionStarted, collectionStopped, collectionCaptureSessionId,
        activeAuthorizedStreamCount)
    }

    /** Blank ids are ignored; one expected device is not a gate. */
    constructor Configure(count: Option<nat>, deviceIds: set<string>)
      ensures State() == Configured(count, deviceIds)
    {
      expectedDeviceIds := deviceIds;
      var expected: Option<nat> :=
        if deviceIds != {} then (if |deviceIds| > 1 then Some(|deviceIds|) else None)
        else if count.Some? && count.value > 1 then count
        else None;
      expectedDeviceCount := expected;
      gateOpen := expected.None?;
      observedDeviceIds, activeDeviceIds := {}, {};
      activeDeviceStreamCounts, latestDeviceTimestampMs := map[], map[];
      gateStartTimestampMs, firstAcceptedTimestampMs := None, None;
      preGateDroppedCount, staleAfterGateDroppedCount := 0, 0;
      collectionStarted := expected.None?;
      collectionStopped := false;
      collectionCaptureSessionId := None;
      activeAuthorizedStreamCount := 0;
    }

    method ResetCollection()
      modifies this
      ensures State() == old(State()).Reset()
    {
      ForgetDevices();
      ForgetGate();
    }

    method ForgetGate()
      modifies this`gateOpen, this`gateStartTimestampMs, this`firstAcceptedTimestampMs, this`preGateDroppedCount
      modifies this`staleAfterGateDroppedCount, this`collectionStarted, this`collectionStopped
      ensures State() == old(State()).(
        gateOpen := expectedDeviceCount.None?, gateStartMs := None, firstAcceptedMs := None, preGateDropped := 0,
        staleDropped := 0, started := expectedDeviceCount.None?, stopped := false)
    {
      gateOpen := expectedDeviceCount.None?;
      gateStartTimestampMs := None;
      firstAcceptedTimestampMs := None;
      preGateDroppedCount := 0;
      staleAfterGateDroppedCount := 0;
      collectionStarted := expectedDeviceCount.None?;
      collectionStopped := false;
    }

    method ForgetDevices()
      modifies this`observedDeviceIds, this`activeDeviceIds, this`activeDeviceStreamCounts, this`latestDeviceTimestampMs
      ensures State() == old(State()).(observed := {}, active := {}, counts := map[], latest := map[])
    {
      observedDeviceIds := {};
      activeDeviceIds := {};
      activeDeviceStreamCounts := map[];
      latestDeviceTimestampMs := map[];
    }

    method AcquireAuthorizedCollection(session: string) returns (acquired: bool)
      modifies this
      ensures acquired == old(State()).MayAcquire(session)
      ensures State() == old(State()).Acquire(session)
    {
      if collectionCaptureSessionId.None? {
        collectionCaptureSessionId := Some(session);
      } else if collectionCaptureSessionId != Some(session) {
        if activeAuthorizedStreamCount > 0 {
          return false;
        }
        ResetCollection();
        collectionCaptureSessionId := Some(session);
      }
      activeAuthorizedStreamCount := activeAuthorizedStreamCount + 1;
      return true;
    }

    method ReleaseAuthorizedCollection(session: string)
      modifies this
      ensures State() == old(State()).Release(session)
    {
      if collectionCaptureSessionId != Some(session) {
        return;
      }
      activeAuthorizedStreamCount := if activeAuthorizedStreamCount - 1 > 0 then activeAuthorizedStreamCount - 1 else 0;
    }

    method MarkDeviceActive(device: string)
      modifies this
      ensures State() == old(State()).MarkActive(device)
    {
      observedDeviceIds := observedDeviceIds + {device};
      var count := if device in activeDeviceStreamCounts then activeDeviceStreamCounts[device] else 0;
      activeDeviceStreamCounts := activeDeviceStreamCounts[device := count + 1];
      activeDeviceIds := activeDeviceIds + {device};
    }

    method RecordDeviceTimestamp(device: string, timestampMs: int)
      modifies this
      ensures State() == old(State()).Record(device, timestampMs)
    {
      if device !in latestDeviceTimestampMs || timestampMs > latestDeviceTimestampMs[device] {
        latestDeviceTimestampMs := latestDeviceTimestampMs[device := timestampMs];
      }
    }

    method GreatestClock(devices: set<string>) returns (greatest: int)
      requires devices != {} && devices <= latestDeviceTimestampMs.Keys
      ensures greatest == LatestOf(latestDeviceTimestampMs, devices)
    {
      var first :| first in devices;
      ghost var at := first;
      greatest := latestDeviceTimestampMs[first];
      var rest := devices - {first};
      while rest != {}
        invariant rest <= devices && at in devices && latestDeviceTimestampMs[at] == greatest
        invariant forall d | d in devices && d !in rest :: latestDeviceTimestampMs[d] <= greatest
        decreases |rest|
      {
        var d :| d in rest;
        rest := rest - {d};
        if latestDeviceTimestampMs[d] > greatest {
          greatest, at := latestDeviceTimestampMs[d], d;
        }
      }
      LatestOfSays(latestDeviceTimestampMs, devices);
    }

    method OpenGate()
      modifies this
      ensures State() == old(State()).OpenGate()
    {
      gateOpen := true;
      collectionStarted := true;
      if gateStartTimestampMs.Some? {
        return;
      }
      var clocks := State().Clocks();
      if clocks != {} {
        var greatest := GreatestClock(clocks);
        gateStartTimestampMs := Some(greatest);
      }
    }

    method AllowIngest(device: string, timestampMs: int) returns (allowed: bool)
      modifies this
      ensures allowed == old(State()).LetsIn(device, timestampMs)
      ensures State() == old(State()).Ask(device, timestampMs)
    {
      if collectionStopped || (expectedDeviceIds != {} && device !in expectedDeviceIds) {
        return false;
      }
      if gateOpen {
        if expectedDeviceCount.Some? && gateStartTimestampMs.Some? && timestampMs < gateStartTimestampMs.value {
          staleAfterGateDroppedCount := staleAfterGateDroppedCount + 1;
          return false;
        }
        if firstAcceptedTimestampMs.None? {
          firstAcceptedTimestampMs := Some(timestampMs);
        }
        return true;
      }
      if State().Quorum() {
        OpenGate();
      }
      preGateDroppedCount := preGateDroppedCount + 1;
      return false;
    }

    method DropStreams(devices: set<string>)
      modifies this`activeDeviceStreamCounts, this`activeDeviceIds
      ensures State() == old(State()).WithoutStreams(devices)
    {
      var counts, active := OneStreamLess(State(), devices);
      activeDeviceStreamCounts := counts;
      activeDeviceIds := active;
    }

    method MarkStreamClosed(devices: set<string>)
      modifies this
      ensures State() == old(State()).Close(devices)
    {
      if devices == {} {
        return;
      }
      DropStreams(devices);
      if !collectionStarted || collectionStopped || expectedDeviceCount.None? {
        return;
      }
      if !State().Quorum() {
        gateOpen := false;
        collectionStopped := true;
      }
    }
  }
}

/** Authorized streams interleave: each takes its locked steps one at a time, in the order of
    the stream loop, while the others do the same. */
module IngestRuns {
  import opened Wrappers
  import opened IngestGate

  /** Where a stream stands between two locked steps. */
  datatype Phase =
    | Waiting
    | ToRecord(device: string, timestampMs: int)
    | ToAsk(device: string, timestampMs: int)
    | Leaving

  /** An open stream: its session, and the devices it has marked active. */
  datatype Stream = Stream(session: string, marked: set<string>, phase: Phase)

  datatype Step =
    | Join(stream: nat, session: string)
    | Receive(stream: nat, device: string, timestampMs: int)
    | RecordClock(stream: nat)
    | AskIn(stream: nat)
    | Disconnect(stream: nat)
    | Leave(stream: nat)

  /** A frame that was let in, the gate start and the devices with an open stream at that
      moment, and in which collection. */
  datatype Accepted = Accepted(
    device: string, timestampMs: int, startMs: Option<int>, streaming: set<string>, collection: nat)

  datatype Server = Server(gate: GateState, streams: map<nat, Stream>, accepted: seq<Accepted>, collection: nat)

  /** The devices that some open stream has marked. */
  function Streaming(streams: map<nat, Stream>): set<string>
  {
    set id, d | id in streams && d in streams[id].marked :: d
  }

  predicate Passes(gate: GateState, session: string)
  {
    gate.owner.Some? && gate.owner.value != session && gate.MayAcquire(session)
  }

  function LetIn(server: Server, device: string, timestampMs: int): Accepted
  {
    Accepted(device, timestampMs, server.gate.gateStartMs, Streaming(server.streams), server.collection)
  }

  /** A step that does not fit the stream's place in its loop does nothing. */
  ghost function Next(server: Server, step: Step): Server
  {
    match step
    case Join(id, session) =>
      if id in server.streams || !server.gate.MayAcquire(session) then server
      else
        server.(
          gate := server.gate.Acquire(session),
          streams := server.streams[id := Stream(session, {}, Waiting)],
          collection := if Passes(server.gate, session) then server.collection + 1 else server.collection)
    case Receive(id, device, timestampMs) =>
      if id !in server.streams || server.streams[id].phase != Waiting then server
      else
        var stream := server.streams[id];
        server.(
          gate := if device in stream.marked then server.gate else server.gate.MarkActive(device),
          streams := server.streams[id :=
            Stream(stream.session, stream.marked + {device}, ToRecord(device, timestampMs))])
    case RecordClock(id) =>
      if id !in server.streams || !server.streams[id].phase.ToRecord? then server
      else
        var phase := server.streams[id].phase;
        server.(
          gate := server.gate.Record(phase.device, phase.timestampMs),
          streams := server.streams[id := server.streams[id].(phase := ToAsk(phase.device, phase.timestampMs))])
    case AskIn(id) =>
      if id !in server.streams || !server.streams[id].phase.ToAsk? then server
      else
        var phase := server.streams[id].phase;
        server.(
          gate := server.gate.Ask(phase.device, phase.timestampMs),
          streams := server.streams[id := server.streams[id].(phase := Waiting)],
          accepted :=
            if server.gate.LetsIn(phase.device, phase.timestampMs)
            then server.accepted + [LetIn(server, phase.device, phase.timestampMs)]
            else server.accepted)
    case Disconnect(id) =>
      if id !in server.streams || server.streams[id].phase == Leaving then server
      else
        server.(
          gate := server.gate.Close(server.streams[id].marked),
          streams := server.streams[id := Stream(server.streams[id].session, {}, Leaving)])
    case Leave(id) =>
      if id !in server.streams || server.streams[id].phase != Leaving then server
      else server.(gate := server.gate.Release(server.streams[id].session), streams := server.streams - {id})
  }

  ghost function RunSteps(server: Server, steps: seq<Step>): Server
    decreases |steps|
  {
    if steps == [] then server else RunSteps(Next(server, steps[0]), steps[1..])
  }

  function Start(count: Option<nat>, deviceIds: set<string>): Server
  {
    Server(Configured(count, deviceIds), map[], [], 0)
  }

  // ----- counting streams -----

  /** The open streams that have marked the device. */
  function Marking(streams: map<nat, Stream>, device: string): set<nat>
  {
    set id | id in streams && device in streams[id].marked
  }

  /** The counters count exactly the streams that marked each device; a device is active
      exactly when there is one. */
  ghost predicate CountsExact(gate: GateState, streams: map<nat, Stream>)
  {
    && (forall d :: gate.CountOf(d) == |Marking(streams, d)|)
    && (forall d | d in gate.counts :: gate.counts[d] > 0)
    && gate.active == gate.counts.Keys
  }

  /** All streams that hold the collection belong to its owner, and their number is exact. */
  ghost predicate OwnerExact(gate: GateState, streams: map<nat, Stream>)
  {
    && gate.authorizedStreams == |streams|
    && (forall id | id in streams :: gate.owner == Some(streams[id].session))
  }

  lemma MarkingAdded(streams: map<nat, Stream>, id: nat, stream: Stream, d: string)
    ensures id !in streams && d in stream.marked ==> |Marking(streams[id := stream], d)| == |Marking(streams, d)| + 1
    ensures id in streams && (d in stream.marked <==> d in streams[id].marked) ==>
              Marking(streams[id := stream], d) == Marking(streams, d)
    ensures id in streams && d in stream.marked && d !in streams[id].marked ==>
              |Marking(streams[id := stream], d)| == |Marking(streams, d)| + 1
    ensures id in streams && d !in stream.marked && d in streams[id].marked ==>
              |Marking(streams[id := stream], d)| == |Marking(streams, d)| - 1
    ensures id !in streams && d !in stream.marked ==> Marking(streams[id := stream], d) == Marking(streams, d)
  {
    var before, after := Marking(streams, d), Marking(streams[id := stream], d);
    if d in stream.marked {
      assert after == before + {id};
    } else {
      assert after == before - {id};
    }
  }

  lemma NoStreamsNoMarks(streams: map<nat, Stream>, d: string)
    requires |streams| == 0
    ensures Marking(streams, d) == {}
  {
    assert streams.Keys == {} by { assert |streams.Keys| == |streams|; }
  }

  lemma JoinExact(server: Server, id: nat, session: string)
    requires CountsExact(server.gate, server.streams) && OwnerExact(server.gate, server.streams)
    ensures var after := Next(server, Join(id, session));
            CountsExact(after.gate, after.streams) && OwnerExact(after.gate, after.streams)
    ensures Passes(server.gate, session) ==> server.streams == map[]
  {
    if Passes(server.gate, session) {
      assert |server.streams| == 0;
    }
    var after := Next(server, Join(id, session));
    if id !in server.streams && server.gate.MayAcquire(session) {
      forall d ensures after.gate.CountOf(d) == |Marking(after.streams, d)| {
        MarkingAdded(server.streams, id, Stream(session, {}, Waiting), d);
        if Passes(server.gate, session) { NoStreamsNoMarks(server.streams, d); }
      }
    }
  }

  lemma ReceiveExact(server: Server, id: nat, device: string, timestampMs: int)
    requires CountsExact(server.gate, server.streams) && OwnerExact(server.gate, server.streams)
    ensures var after := Next(server, Receive(id, device, timestampMs));
            CountsExact(after.gate, after.streams) && OwnerExact(after.gate, after.streams)
  {
    var after := Next(server, Receive(id, device, timestampMs));
    if id in server.streams && server.streams[id].phase == Waiting {
      forall d ensures after.gate.CountOf(d) == |Marking(after.streams, d)| {
        MarkingAdded(server.streams, id, after.streams[id], d);
        assert after.streams == server.streams[id := after.streams[id]];
      }
    }
  }

  lemma DisconnectExact(server: Server, id: nat)
    requires CountsExact(server.gate, server.streams) && OwnerExact(server.gate, server.streams)
    ensures var after := Next(server, Disconnect(id));
            CountsExact(after.gate, after.streams) && OwnerExact(after.gate, after.streams)
  {
    var after := Next(server, Disconnect(id));
    if id in server.streams && server.streams[id].phase != Leaving {
      var devices := server.streams[id].marked;
      ClosedCounts(server.gate, devices);
      hide GateState.Close;
      forall d ensures after.gate.CountOf(d) == |Marking(after.streams, d)| {
        MarkingAdded(server.streams, id, after.streams[id], d);
        assert after.streams == server.streams[id := after.streams[id]];
        if d in devices {
          assert id in Marking(server.streams, d);
        }
      }
    }
  }

  /** Closing takes one from the count of each of the devices. */
  lemma ClosedCounts(gate: GateState, devices: set<string>)
    requires (forall d | d in gate.counts :: gate.counts[d] > 0) && gate.active == gate.counts.Keys
    ensures var after := gate.Close(devices);
            && (forall d ::
                  after.CountOf(d)
                  == if d in devices && gate.CountOf(d) > 0 then gate.CountOf(d) - 1 else gate.CountOf(d))
            && (forall d | d in after.counts :: after.counts[d] > 0)
            && after.active == after.counts.Keys
            && after.owner == gate.owner && after.authorizedStreams == gate.authorizedStreams
  {
  }

  lemma LeaveExact(server: Server, id: nat)
    requires CountsExact(server.gate, server.streams) && OwnerExact(server.gate, server.streams)
    requires forall s | s in server.streams && server.streams[s].phase == Leaving :: server.streams[s].marked == {}
    ensures var after := Next(server, Leave(id));
            CountsExact(after.gate, after.streams) && OwnerExact(after.gate, after.streams)
  {
    var after := Next(server, Leave(id));
    if id in server.streams && server.streams[id].phase == Leaving {
      assert after.streams.Keys == server.streams.Keys - {id};
      assert |after.streams.Keys| == |server.streams.Keys| - 1;
      forall d ensures after.gate.CountOf(d) == |Marking(after.streams, d)| {
        assert Marking(after.streams, d) == Marking(server.streams, d);
      }
    }
  }

  // ----- the gate -----

  /** Phases are what the stream loop makes them. */
  ghost predicate PhasesSound(gate: GateState, streams: map<nat, Stream>)
  {
    forall id | id in streams ::
      var stream := streams[id];
      && (stream.phase.ToRecord? ==> stream.phase.device in stream.marked)
      && (stream.phase.ToAsk? ==> stream.phase.device in stream.marked && stream.phase.device in gate.latest)
      && (stream.phase == Leaving ==> stream.marked == {})
  }

  /** The gate is open exactly from its start to its stop; the start fixes a time; while it
      is open the quorum is there. */
  ghost predicate GateSound(gate: GateState)
  {
    && gate.expectedCount.Some?
    && (gate.gateOpen <==> gate.started && !gate.stopped)
    && (gate.started <==> gate.gateStartMs.Some?)
    && (gate.stopped ==> gate.started)
    && (gate.gateOpen ==> gate.Quorum())
  }

  /** From the start of the gate on, from an expected device, while every expected device, or
      enough devices, had an open stream. */
  predicate MetGate(gate: GateState, a: Accepted)
  {
    && a.startMs.Some? && a.timestampMs >= a.startMs.value
    && (if gate.expectedIds != {} then a.device in gate.expectedIds && gate.expectedIds <= a.streaming
        else gate.expectedCount.Some? && |a.streaming| >= gate.expectedCount.value)
  }

  ghost predicate LogSound(server: Server)
  {
    && (forall i | 0 <= i < |server.accepted| ::
          var a := server.accepted[i];
          && a.collection <= server.collection && MetGate(server.gate, a)
          && (a.collection == server.collection ==> a.startMs == server.gate.gateStartMs))
    && (forall i, j | && 0 <= i < j < |server.accepted|
                      && server.accepted[i].collection == server.accepted[j].collection ::
          server.accepted[i].startMs == server.accepted[j].startMs)
  }

  ghost predicate Sound(server: Server)
  {
    && CountsExact(server.gate, server.streams)
    && OwnerExact(server.gate, server.streams)
    && PhasesSound(server.gate, server.streams)
    && GateSound(server.gate)
    && LogSound(server)
  }

  lemma {:induction false} StepExact(server: Server, step: Step)
    requires CountsExact(server.gate, server.streams) && OwnerExact(server.gate, server.streams)
    requires PhasesSound(server.gate, server.streams)
    ensures var after := Next(server, step);
            && CountsExact(after.gate, after.streams) && OwnerExact(after.gate, after.streams)
            && PhasesSound(after.gate, after.streams)
  {
    StepPhases(server, step);
    assert forall s | s in server.streams && server.streams[s].phase == Leaving :: server.streams[s].marked == {};
    hide *;
    match step
    case Join(id, session) => JoinExact(server, id, session);
    case Receive(id, device, timestampMs) => ReceiveExact(server, id, device, timestampMs);
    case Disconnect(id) => DisconnectExact(server, id);
    case Leave(id) => LeaveExact(server, id);
    case RecordClock(id) => RecordExact(server, id);
    case AskIn(id) => AskExact(server, id);
  }

  lemma StepPhases(server: Server, step: Step)
    requires PhasesSound(server.gate, server.streams) && OwnerExact(server.gate, server.streams)
    ensures PhasesSound(Next(server, step).gate, Next(server, step).streams)
  {
    match step
    case Disconnect(id) =>
      hide GateState.WithoutStreams, GateState.Quorum;
      if id in server.streams { WithoutStreamsRest(server.gate, server.streams[id].marked); }
    case AskIn(id) =>
      hide GateState.Ask, GateState.LetsIn;
      if id in server.streams && server.streams[id].phase.ToAsk? {
        AskKeeps(server.gate, server.streams[id].phase.device, server.streams[id].phase.timestampMs);
      }
    case Join(id, session) =>
      hide GateState.Quorum;
      if Passes(server.gate, session) {
        assert |server.streams| == 0;
      }
    case _ =>
      hide OwnerExact;
  }

  lemma RecordExact(server: Server, id: nat)
    requires CountsExact(server.gate, server.streams) && OwnerExact(server.gate, server.streams)
    ensures var after := Next(server, RecordClock(id));
            CountsExact(after.gate, after.streams) && OwnerExact(after.gate, after.streams)
  {
    hide CountsExact, OwnerExact;
    SameStreams(server, Next(server, RecordClock(id)));
  }

  /** Steps that mark nothing keep the counts. */
  lemma SameStreams(before: Server, after: Server)
    requires CountsExact(before.gate, before.streams) && OwnerExact(before.gate, before.streams)
    requires after.gate.counts == before.gate.counts && after.gate.active == before.gate.active
    requires after.gate.owner == before.gate.owner && after.gate.authorizedStreams == before.gate.authorizedStreams
    requires after.streams.Keys == before.streams.Keys
    requires forall id | id in before.streams ::
      after.streams[id].session == before.streams[id].session && after.streams[id].marked == before.streams[id].marked
    ensures CountsExact(after.gate, after.streams) && OwnerExact(after.gate, after.streams)
  {
    forall d ensures after.gate.CountOf(d) == |Marking(after.streams, d)| {
      assert Marking(after.streams, d) == Marking(before.streams, d);
    }
    assert |after.streams.Keys| == |before.streams.Keys|;
  }

  lemma AskExact(server: Server, id: nat)
    requires CountsExact(server.gate, server.streams) && OwnerExact(server.gate, server.streams)
    ensures var after := Next(server, AskIn(id));
            CountsExact(after.gate, after.streams) && OwnerExact(after.gate, after.streams)
  {
    hide GateState.Ask, CountsExact, OwnerExact;
    if id in server.streams && server.streams[id].phase.ToAsk? {
      AskKeeps(server.gate, server.streams[id].phase.device, server.streams[id].phase.timestampMs);
      SameStreams(server, Next(server, AskIn(id)));
    }
  }

  lemma AskKeeps(gate: GateState, device: string, timestampMs: int)
    ensures var after := gate.Ask(device, timestampMs);
            && after.counts == gate.counts && after.active == gate.active && after.latest == gate.latest
            && after.owner == gate.owner && after.authorizedStreams == gate.authorizedStreams
            && after.expectedCount == gate.expectedCount && after.expectedIds == gate.expectedIds
            && after.stopped == gate.stopped
            && (gate.gateOpen ==>
                  after.gateOpen && after.started == gate.started && after.gateStartMs == gate.gateStartMs)
  {
  }

  // ----- gate safety -----

  lemma MoreActive(gate: GateState, device: string)
    requires gate.Quorum()
    ensures gate.MarkActive(device).Quorum()
  {
    assert gate.active + {device} == if device in gate.active then gate.active else gate.active + {device};
  }

  /** When a stream that has recorded its clock opens the gate, the start is fixed. */
  lemma {:induction false} OpeningFixesStart(server: Server, id: nat)
    requires CountsExact(server.gate, server.streams) && PhasesSound(server.gate, server.streams)
    requires GateSound(server.gate)
    requires id in server.streams && server.streams[id].phase.ToAsk? && !server.gate.stopped && !server.gate.gateOpen
    requires server.gate.expectedIds != {} ==> server.streams[id].phase.device in server.gate.expectedIds
    ensures server.gate.OpenGate().gateStartMs.Some?
  {
    var device := server.streams[id].phase.device;
    assert id in Marking(server.streams, device);
    assert server.gate.CountOf(device) > 0;
    assert device in server.gate.Clocks();
  }

  lemma AskSound(server: Server, id: nat)
    requires CountsExact(server.gate, server.streams) && PhasesSound(server.gate, server.streams)
    requires GateSound(server.gate)
    requires id in server.streams && server.streams[id].phase.ToAsk?
    ensures GateSound(server.gate.Ask(server.streams[id].phase.device, server.streams[id].phase.timestampMs))
  {
    var gate, device := server.gate, server.streams[id].phase.device;
    if !gate.stopped && !gate.gateOpen && (gate.expectedIds != {} ==> device in gate.expectedIds) && gate.Quorum() {
      OpeningFixesStart(server, id);
      hide CountsExact, PhasesSound, GateState.Clocks;
    }
  }

  lemma CloseSound(gate: GateState, devices: set<string>)
    requires GateSound(gate)
    ensures GateSound(gate.Close(devices))
  {
    hide GateState.WithoutStreams, GateState.Quorum;
    WithoutStreamsRest(gate, devices);
    QuorumLost(gate, devices);
  }

  lemma WithoutStreamsRest(gate: GateState, devices: set<string>)
    ensures var left := gate.WithoutStreams(devices);
            left.(active := {}, counts := map[]) == gate.(active := {}, counts := map[])
  {
  }

  lemma QuorumLost(gate: GateState, devices: set<string>)
    ensures devices != {} && gate.started && !gate.stopped && gate.expectedCount.Some? ==>
              (gate.Close(devices).stopped <==> !gate.WithoutStreams(devices).Quorum())
              && (!gate.Close(devices).stopped ==> gate.Close(devices) == gate.WithoutStreams(devices))
              && (gate.Close(devices).stopped ==> !gate.Close(devices).gateOpen)
  {
    hide GateState.WithoutStreams, GateState.Quorum;
    WithoutStreamsRest(gate, devices);
  }

  lemma StepGateSound(server: Server, step: Step)
    requires CountsExact(server.gate, server.streams) && PhasesSound(server.gate, server.streams)
    requires GateSound(server.gate)
    ensures GateSound(Next(server, step).gate)
  {
    match step
    case AskIn(id) =>
      if id in server.streams && server.streams[id].phase.ToAsk? {
        hide GateState.Ask, CountsExact, PhasesSound;
        AskSound(server, id);
      }
    case Disconnect(id) =>
      if id in server.streams {
        hide GateState.Close, CountsExact, PhasesSound;
        CloseSound(server.gate, server.streams[id].marked);
      }
    case Receive(id, device, timestampMs) =>
      hide CountsExact, PhasesSound;
      if server.gate.Quorum() { MoreActive(server.gate, device); }
    case _ =>
      hide CountsExact, PhasesSound;
  }

  /** The gate's active devices are those some open stream has marked. */
  lemma ActiveAreStreaming(gate: GateState, streams: map<nat, Stream>)
    requires CountsExact(gate, streams)
    ensures gate.active == Streaming(streams)
  {
    forall d ensures d in gate.active <==> d in Streaming(streams) {
      assert gate.CountOf(d) == |Marking(streams, d)|;
      if d in Streaming(streams) {
        var id :| id in streams && d in streams[id].marked;
        assert id in Marking(streams, d);
      } else {
        assert Marking(streams, d) == {};
      }
    }
  }

  lemma LetInMeetsGate(server: Server, device: string, timestampMs: int)
    requires CountsExact(server.gate, server.streams) && GateSound(server.gate)
    requires server.gate.LetsIn(device, timestampMs)
    ensures MetGate(server.gate, LetIn(server, device, timestampMs))
  {
    ActiveAreStreaming(server.gate, server.streams);
    hide CountsExact, Streaming;
  }

  /** Within one collection the start, once fixed, does not move, and a stop is for good. */
  lemma {:induction false} StartIsFixed(server: Server, step: Step)
    requires OwnerExact(server.gate, server.streams) && GateSound(server.gate)
    requires Next(server, step).collection == server.collection
    ensures server.gate.gateStartMs.Some? ==> Next(server, step).gate.gateStartMs == server.gate.gateStartMs
    ensures server.gate.stopped ==> Next(server, step).gate.stopped
  {
    match step
    case AskIn(id) =>
      if id in server.streams && server.streams[id].phase.ToAsk? {
        AskKeeps(server.gate, server.streams[id].phase.device, server.streams[id].phase.timestampMs);
      }
    case Disconnect(id) =>
      hide GateState.WithoutStreams, GateState.Quorum;
      if id in server.streams { WithoutStreamsRest(server.gate, server.streams[id].marked); }
    case _ =>
  }

  lemma StepConfiguration(server: Server, step: Step)
    ensures Next(server, step).gate.expectedIds == server.gate.expectedIds
    ensures Next(server, step).gate.expectedCount == server.gate.expectedCount
    ensures Next(server, step).collection == server.collection || Next(server, step).collection == server.collection + 1
    ensures Next(server, step).collection != server.collection ==> Next(server, step).accepted == server.accepted
    ensures Next(server, step).accepted == server.accepted
            || (&& step.AskIn? && step.stream in server.streams && server.streams[step.stream].phase.ToAsk?
                && var phase := server.streams[step.stream].phase;
                   && server.gate.LetsIn(phase.device, phase.timestampMs)
                   && Next(server, step).accepted
                      == server.accepted + [LetIn(server, phase.device, phase.timestampMs)])
  {
    hide GateState.Clocks, GateState.Quorum, GateState.Leaving, Streaming;
  }

  lemma StepLogSound(server: Server, step: Step)
    requires CountsExact(server.gate, server.streams) && OwnerExact(server.gate, server.streams)
    requires GateSound(server.gate) && LogSound(server)
    ensures LogSound(Next(server, step))
  {
    var after := Next(server, step);
    StepConfiguration(server, step);
    if after.collection == server.collection { StartIsFixed(server, step); }
    if after.accepted != server.accepted {
      var phase := server.streams[step.stream].phase;
      LetInMeetsGate(server, phase.device, phase.timestampMs);
    }
    hide Next, OwnerExact, GateState.Quorum, Streaming;
    assert forall i | 0 <= i < |server.accepted| && server.accepted[i].collection == server.collection ::
      server.gate.gateStartMs.Some?;
  }

  lemma StepSound(server: Server, step: Step)
    requires Sound(server)
    ensures Sound(Next(server, step))
  {
    hide CountsExact, OwnerExact, PhasesSound, GateSound, LogSound, Next;
    StepExact(server, step);
    StepGateSound(server, step);
    StepLogSound(server, step);
  }

  lemma {:induction false} RunSound(server: Server, steps: seq<Step>)
    requires Sound(server)
    ensures Sound(RunSteps(server, steps))
    decreases |steps|
  {
    if steps != [] {
      hide Sound, Next;
      StepSound(server, steps[0]);
      RunSound(Next(server, steps[0]), steps[1..]);
    }
  }

  /** Whatever the interleaving: the counts and the ownership are exact, and every accepted
      frame met the gate of its collection. */
  lemma {:induction false} ReachableSound(count: Option<nat>, deviceIds: set<string>, steps: seq<Step>)
    requires Configured(count, deviceIds).GateEnabled()
    ensures Sound(RunSteps(Start(count, deviceIds), steps))
  {
    assert forall d :: Marking(map[], d) == {};
    assert Sound(Start(count, deviceIds));
    hide Sound, Next;
    RunSound(Start(count, deviceIds), steps);
  }

  lemma {:induction false} ConfigurationStays(server: Server, steps: seq<Step>)
    ensures RunSteps(server, steps).gate.expectedIds == server.gate.expectedIds
    ensures RunSteps(server, steps).gate.expectedCount == server.gate.expectedCount
    decreases |steps|
  {
    if steps != [] {
      StepConfiguration(server, steps[0]);
      hide Next;
      ConfigurationStays(Next(server, steps[0]), steps[1..]);
    }
  }

  /** In every interleaving, each accepted frame came when every expected device, or the
      expected number of devices, had an open stream, and not before the start of its gate. */
  lemma {:induction false} LetInOnlyInQuorum(
      count: Option<nat>, deviceIds: set<string>, steps: seq<Step>, a: Accepted)
    requires Configured(count, deviceIds).GateEnabled()
    requires a in RunSteps(Start(count, deviceIds), steps).accepted
    ensures a.startMs.Some? && a.timestampMs >= a.startMs.value
    ensures deviceIds != {} ==> a.device in deviceIds && deviceIds <= a.streaming
    ensures deviceIds == {} ==> count.Some? && |a.streaming| >= count.value
  {
    ReachableSound(count, deviceIds, steps);
    ConfigurationStays(Start(count, deviceIds), steps);
    var server := RunSteps(Start(count, deviceIds), steps);
    var i :| 0 <= i < |server.accepted| && server.accepted[i] == a;
    hide CountsExact, OwnerExact, PhasesSound, GateSound, RunSteps;
    assert MetGate(server.gate, server.accepted[i]);
  }

  /** The same counts and ownership hold when there is no gate. */
  lemma {:induction false} RunExact(server: Server, steps: seq<Step>)
    requires CountsExact(server.gate, server.streams) && OwnerExact(server.gate, server.streams)
    requires PhasesSound(server.gate, server.streams)
    ensures var after := RunSteps(server, steps);
            CountsExact(after.gate, after.streams) && OwnerExact(after.gate, after.streams)
    decreases |steps|
  {
    if steps != [] {
      hide CountsExact, OwnerExact, PhasesSound, Next;
      StepExact(server, steps[0]);
      RunExact(Next(server, steps[0]), steps[1..]);
    }
  }

  /** Once stopped, nothing is let in until the collection passes to another session. */
  lemma {:induction false} NothingAfterStop(server: Server, steps: seq<Step>)
    requires Sound(server) && server.gate.stopped
    ensures RunSteps(server, steps).collection >= server.collection
    ensures RunSteps(server, steps).collection == server.collection ==>
              RunSteps(server, steps).accepted == server.accepted && RunSteps(server, steps).gate.stopped
    decreases |steps|
  {
    if steps != [] {
      var next := Next(server, steps[0]);
      StepConfiguration(server, steps[0]);
      StepSound(server, steps[0]);
      if next.collection == server.collection {
        StartIsFixed(server, steps[0]);
        hide Sound, Next;
        NothingAfterStop(next, steps[1..]);
      } else {
        hide Sound, Next;
        CollectionGrows(next, steps[1..]);
      }
    }
  }

  lemma {:induction false} CollectionGrows(server: Server, steps: seq<Step>)
    ensures RunSteps(server, steps).collection >= server.collection
    decreases |steps|
  {
    if steps != [] {
      StepConfiguration(server, steps[0]);
      hide Next;
      CollectionGrows(Next(server, steps[0]), steps[1..]);
    }
  }

  /** When an expected device drops out of a started collection, the collection stops. */
  lemma {:induction false} DroppingStops(server: Server, id: nat, device: string)
    requires Sound(server) && server.gate.started && device in server.gate.expectedIds
    requires id in server.streams && device in server.streams[id].marked && Marking(server.streams, device) == {id}
    ensures Next(server, Disconnect(id)).gate.stopped
  {
    var devices := server.streams[id].marked;
    assert |Marking(server.streams, device)| == 1;
    assert device in server.gate.Leaving(devices);
    assert device !in server.gate.WithoutStreams(devices).active;
    hide CountsExact, OwnerExact, LogSound, Streaming;
    if !server.gate.stopped { QuorumLost(server.gate, devices); }
    StartIsFixed(server, Disconnect(id));
  }

  /** A session takes the collection over only when no stream is left, and it starts afresh. */
  lemma {:induction false} HandoffOnlyWhenIdle(server: Server, id: nat, session: string)
    requires CountsExact(server.gate, server.streams) && OwnerExact(server.gate, server.streams)
    requires Next(server, Join(id, session)).collection != server.collection
    ensures server.streams == map[]
    ensures var gated := server.gate.expectedCount.Some?;
            Next(server, Join(id, session)).gate
            == GateState(
                 server.gate.expectedCount, server.gate.expectedIds, !gated, {}, {}, map[], map[], None, None, 0, 0,
                 !gated, false, Some(session), 1)
  {
    JoinExact(server, id, session);
    assert |server.streams| == 0;
  }
}

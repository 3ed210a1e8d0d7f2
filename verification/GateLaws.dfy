/** When the gate opens, whom it lets in and when it closes, said of the open streams and the
    recorded clocks alone. */
module GateLaws {
  import opened Wrappers
  import opened IngestGate
  import opened IngestRuns

  /** Every expected device, or as many devices as are expected, has an open stream. */
  predicate QuorumStreams(server: Server)
  {
    if server.gate.expectedIds != {} then forall d | d in server.gate.expectedIds :: d in Streaming(server.streams)
    else server.gate.expectedCount.Some? && |Streaming(server.streams)| >= server.gate.expectedCount.value
  }

  predicate Expected(server: Server, device: string)
  {
    server.gate.expectedIds == {} || device in server.gate.expectedIds
  }

  /** The devices whose clocks count for the start: the expected ones, else the streaming ones. */
  predicate Counts(server: Server, device: string)
  {
    && device in server.gate.latest
    && (if server.gate.expectedIds != {} then device in server.gate.expectedIds
        else device in Streaming(server.streams))
  }

  /** The greatest recorded clock of the devices that count. */
  ghost predicate IsGreatestClock(server: Server, startMs: int)
  {
    && (exists d :: Counts(server, d) && server.gate.latest[d] == startMs)
    && (forall d | Counts(server, d) :: server.gate.latest[d] <= startMs)
  }

  predicate Asks(server: Server, id: nat)
  {
    id in server.streams && server.streams[id].phase.ToAsk?
  }

  function FrameOf(server: Server, id: nat): (string, int)
    requires Asks(server, id)
  {
    (server.streams[id].phase.device, server.streams[id].phase.timestampMs)
  }

  lemma QuorumIsStreaming(server: Server)
    requires CountsExact(server.gate, server.streams) && server.gate.expectedCount.Some?
    ensures server.gate.Quorum() <==> QuorumStreams(server)
    ensures server.gate.active == Streaming(server.streams)
  {
    ActiveAreStreaming(server.gate, server.streams);
    hide CountsExact, Streaming;
  }

  lemma OpenedClock(server: Server)
    requires server.gate.active == Streaming(server.streams) && server.gate.gateStartMs.None?
    requires exists d :: Counts(server, d)
    ensures server.gate.OpenGate().gateStartMs.Some?
    ensures IsGreatestClock(server, server.gate.OpenGate().gateStartMs.value)
  {
    hide Streaming;
    var gate := server.gate;
    var one :| Counts(server, one);
    assert one in gate.Clocks();
    assert forall d :: d in gate.Clocks() <==> Counts(server, d);
    LatestOfSays(gate.latest, gate.Clocks());
  }

  lemma AskerCounts(server: Server, id: nat)
    requires CountsExact(server.gate, server.streams) && PhasesSound(server.gate, server.streams)
    requires Asks(server, id) && Expected(server, FrameOf(server, id).0)
    ensures Counts(server, FrameOf(server, id).0)
  {
    var device := FrameOf(server, id).0;
    assert device in server.streams[id].marked;
  }

  /** An ask of an expected device opens a gate that is closed and not stopped exactly if the
      quorum streams, and fixes the start at the greatest clock. The asking frame is dropped. */
  lemma {:induction false} GateOpensAtQuorum(server: Server, id: nat)
    requires Sound(server) && Asks(server, id) && Expected(server, FrameOf(server, id).0)
    requires !server.gate.gateOpen && !server.gate.stopped
    ensures var after := Next(server, AskIn(id));
            && (after.gate.gateOpen <==> QuorumStreams(server))
            && after.gate.started == after.gate.gateOpen && !after.gate.stopped
            && (after.gate.gateOpen ==>
                  after.gate.gateStartMs.Some? && IsGreatestClock(server, after.gate.gateStartMs.value))
            && (!after.gate.gateOpen ==> after.gate.gateStartMs.None?)
            && after.accepted == server.accepted
            && after.gate.preGateDropped == server.gate.preGateDropped + 1
            && after.gate.staleDropped == server.gate.staleDropped
            && after.gate.firstAcceptedMs == server.gate.firstAcceptedMs
  {
    AskerCounts(server, id);
    QuorumIsStreaming(server);
    OpenedClock(server);
    hide CountsExact, OwnerExact, PhasesSound, LogSound, Counts, IsGreatestClock, GateState.Clocks, Streaming,
      QuorumStreams, GateState.Quorum;
  }

  /** The frame that a stream asks about, as it would be logged. */
  function AskedFrame(server: Server, id: nat): Accepted
    requires Asks(server, id)
  {
    Accepted(FrameOf(server, id).0, FrameOf(server, id).1, server.gate.gateStartMs, Streaming(server.streams),
             server.collection)
  }

  /** While the gate is open an ask is let in exactly if the device is expected and the frame is
      not before the start. */
  lemma {:induction false} OpenGateLetsIn(server: Server, id: nat)
    requires Sound(server) && Asks(server, id) && server.gate.gateOpen
    ensures var (device, timestampMs) := FrameOf(server, id);
            var after, early := Next(server, AskIn(id)), timestampMs < server.gate.gateStartMs.value;
            && server.gate.gateStartMs.Some?
            && after.accepted == (if Expected(server, device) && !early then server.accepted + [AskedFrame(server, id)]
                                  else server.accepted)
            && after.gate.staleDropped
               == server.gate.staleDropped + (if Expected(server, device) && early then 1 else 0)
            && after.gate.preGateDropped == server.gate.preGateDropped
            && after.gate.gateOpen && after.gate.gateStartMs == server.gate.gateStartMs
            && after.gate.firstAcceptedMs
               == if Expected(server, device) && !early && server.gate.firstAcceptedMs.None? then Some(timestampMs)
                  else server.gate.firstAcceptedMs
  {
    hide CountsExact, OwnerExact, PhasesSound, LogSound, GateState.Clocks, Streaming, GateState.Quorum;
  }

  /** A stopped collection, and an unexpected device, are let in nothing and change nothing. */
  lemma {:induction false} OthersAreIgnored(server: Server, id: nat)
    requires Sound(server) && Asks(server, id)
    requires server.gate.stopped || !Expected(server, FrameOf(server, id).0)
    ensures Next(server, AskIn(id)).accepted == server.accepted && Next(server, AskIn(id)).gate == server.gate
  {
    hide CountsExact, OwnerExact, PhasesSound, LogSound, GateState.Clocks, Streaming, GateState.Quorum;
  }

  // ----- until the quorum is lost -----

  /** The collection runs on, and after every step the quorum streams. */
  ghost predicate QuorumLasts(server: Server, steps: seq<Step>)
    decreases |steps|
  {
    && QuorumStreams(server)
    && (steps != [] ==>
          && Next(server, steps[0]).collection == server.collection
          && QuorumLasts(Next(server, steps[0]), steps[1..]))
  }

  lemma StepStaysOpen(server: Server, step: Step)
    requires Sound(server) && server.gate.gateOpen && Next(server, step).collection == server.collection
    requires QuorumStreams(Next(server, step))
    ensures Next(server, step).gate.gateOpen && Next(server, step).gate.gateStartMs == server.gate.gateStartMs
  {
    var after := Next(server, step);
    StepSound(server, step);
    QuorumIsStreaming(after) by { assert CountsExact(after.gate, after.streams) && GateSound(after.gate); }
    StartIsFixed(server, step);
    hide CountsExact, OwnerExact, PhasesSound, LogSound, QuorumStreams;
    NotStopped(server, step);
  }

  lemma NotStopped(server: Server, step: Step)
    requires GateSound(server.gate) && server.gate.gateOpen && Next(server, step).gate.Quorum()
    requires GateSound(Next(server, step).gate) && Next(server, step).gate.gateStartMs == server.gate.gateStartMs
    ensures Next(server, step).gate.gateOpen
  {
    match step
    case AskIn(id) =>
      if id in server.streams && server.streams[id].phase.ToAsk? {
        AskKeeps(server.gate, server.streams[id].phase.device, server.streams[id].phase.timestampMs);
      }
    case Disconnect(id) =>
      if id in server.streams {
        QuorumLost(server.gate, server.streams[id].marked);
        WithoutStreamsRest(server.gate, server.streams[id].marked);
        hide GateState.WithoutStreams, GateState.Quorum;
      }
    case _ =>
      hide GateState.Quorum;
  }

  lemma {:induction false} OpenUntilQuorumLost(server: Server, steps: seq<Step>)
    requires Sound(server) && server.gate.gateOpen && QuorumLasts(server, steps)
    ensures var after := RunSteps(server, steps);
            && Sound(after) && after.gate.gateOpen
            && after.gate.gateStartMs == server.gate.gateStartMs && after.gate.expectedIds == server.gate.expectedIds
    decreases |steps|
  {
    if steps != [] {
      StepSound(server, steps[0]);
      StepConfiguration(server, steps[0]);
      hide Sound, Next, QuorumStreams;
      assert QuorumLasts(Next(server, steps[0]), steps[1..]);
      StepStaysOpen(server, steps[0]);
      OpenUntilQuorumLost(Next(server, steps[0]), steps[1..]);
    }
  }

  /** Whatever happened before the gate was open: from then on every frame of an expected device
      that is not before the start is let in when it asks, as long as the quorum streams. */
  lemma {:induction false} LetInWhileQuorum(
      count: Option<nat>, deviceIds: set<string>, before: seq<Step>, steps: seq<Step>, id: nat)
    requires Configured(count, deviceIds).GateEnabled()
    requires var begun := RunSteps(Start(count, deviceIds), before);
             && begun.gate.gateOpen && QuorumLasts(begun, steps) && Asks(RunSteps(begun, steps), id)
    ensures var begun := RunSteps(Start(count, deviceIds), before);
            var asked := RunSteps(begun, steps);
            var (device, timestampMs) := FrameOf(asked, id);
            && begun.gate.gateStartMs.Some?
            && Next(asked, AskIn(id)).accepted
               == if (deviceIds == {} || device in deviceIds) && timestampMs >= begun.gate.gateStartMs.value
                  then asked.accepted + [AskedFrame(asked, id)] else asked.accepted
  {
    ReachableSound(count, deviceIds, before);
    ConfigurationStays(Start(count, deviceIds), before);
    var begun := RunSteps(Start(count, deviceIds), before);
    assert Start(count, deviceIds).gate.expectedIds == deviceIds;
    hide Next, RunSteps, Start, Configured, CountsExact, OwnerExact, PhasesSound, LogSound, QuorumLasts;
    OpenUntilQuorumLost(begun, steps);
    OpenGateLetsIn(RunSteps(begun, steps), id);
  }

  // ----- closing -----

  /** A disconnect stops a started collection exactly if the quorum does not stream afterwards. */
  lemma {:induction false} StopsWithoutQuorum(server: Server, id: nat)
    requires Sound(server) && id in server.streams && server.streams[id].phase != Leaving
    ensures var after := Next(server, Disconnect(id));
            && (after.gate.stopped <==> server.gate.stopped || (server.gate.started && !QuorumStreams(after)))
            && (after.gate.gateOpen <==> server.gate.gateOpen && !after.gate.stopped)
            && after.gate.started == server.gate.started && after.accepted == server.accepted
  {
    var after, devices := Next(server, Disconnect(id)), server.streams[id].marked;
    StepSound(server, Disconnect(id));
    QuorumIsStreaming(server);
    QuorumIsStreaming(after);
    QuorumLost(server.gate, devices);
    WithoutStreamsRest(server.gate, devices);
    hide CountsExact, OwnerExact, PhasesSound, LogSound, QuorumStreams, GateState.WithoutStreams, Streaming;
    ClosedQuorum(server.gate, devices);
  }

  lemma ClosedQuorum(gate: GateState, devices: set<string>)
    ensures gate.Close(devices).Quorum()
            == (if devices == {} then gate.Quorum() else gate.WithoutStreams(devices).Quorum())
  {
    hide GateState.WithoutStreams;
  }

  /** Nothing but a disconnect stops a collection. */
  lemma {:induction false} OnlyDisconnectStops(server: Server, step: Step)
    requires Sound(server) && !step.Disconnect? && Next(server, step).collection == server.collection
    ensures Next(server, step).gate.stopped == server.gate.stopped
  {
    hide CountsExact, OwnerExact, PhasesSound, LogSound, Streaming, GateState.Clocks, GateState.Quorum;
  }

  // ----- joining -----

  /** A stream joins exactly if every open stream is of its session. The collection passes on
      exactly if it belonged to another session; otherwise the gate stays as it is. */
  lemma {:induction false} JoinsOwnSession(server: Server, id: nat, session: string)
    requires CountsExact(server.gate, server.streams) && OwnerExact(server.gate, server.streams)
    requires id !in server.streams
    ensures var after := Next(server, Join(id, session));
            var joins := forall s | s in server.streams :: server.streams[s].session == session;
            && (if joins then after.streams == server.streams[id := Stream(session, {}, Waiting)] else after == server)
            && (after.collection != server.collection <==>
                  joins && server.gate.owner.Some? && server.gate.owner.value != session)
            && (after.collection == server.collection && joins ==>
                  after.gate == server.gate.(owner := Some(session), authorizedStreams := |after.streams|))
  {
    hide CountsExact, GateState.Quorum, Streaming;
    if server.streams == map[] {
      assert |server.streams| == 0;
    } else {
      var s :| s in server.streams;
      assert |server.streams.Keys| == |server.streams|;
      assert server.streams.Keys != {};
    }
  }

  // ----- what was heard -----

  /** The devices marked and the clocks recorded since the collection began. */
  datatype Heard = Heard(devices: set<string>, clocks: set<(string, int)>)

  ghost function HeardAfter(server: Server, step: Step, heard: Heard): Heard
  {
    if Next(server, step).collection != server.collection then Heard({}, {})
    else
      match step
      case Receive(id, device, _) =>
        if id in server.streams && server.streams[id].phase == Waiting
        then heard.(devices := heard.devices + {device}) else heard
      case RecordClock(id) =>
        if id in server.streams && server.streams[id].phase.ToRecord?
        then heard.(clocks := heard.clocks
                    + {(server.streams[id].phase.device, server.streams[id].phase.timestampMs)})
        else heard
      case _ => heard
  }

  ghost function HeardIn(server: Server, steps: seq<Step>, heard: Heard): Heard
    decreases |steps|
  {
    if steps == [] then heard else HeardIn(Next(server, steps[0]), steps[1..], HeardAfter(server, steps[0], heard))
  }

  /** A device's clock is the greatest time recorded for it. */
  ghost predicate ClocksAreGreatest(gate: GateState, heard: Heard)
  {
    && (forall d | d in gate.latest :: (d, gate.latest[d]) in heard.clocks)
    && (forall c | c in heard.clocks :: c.0 in gate.latest && c.1 <= gate.latest[c.0])
  }

  lemma RecordKeepsGreatest(gate: GateState, heard: Heard, device: string, timestampMs: int)
    requires ClocksAreGreatest(gate, heard)
    ensures ClocksAreGreatest(
              gate.Record(device, timestampMs), heard.(clocks := heard.clocks + {(device, timestampMs)}))
  {
  }

  lemma StepClocks(server: Server, step: Step, heard: Heard)
    requires ClocksAreGreatest(server.gate, heard)
    ensures ClocksAreGreatest(Next(server, step).gate, HeardAfter(server, step, heard))
  {
    match step
    case RecordClock(id) =>
      if id in server.streams && server.streams[id].phase.ToRecord? {
        RecordKeepsGreatest(server.gate, heard, server.streams[id].phase.device, server.streams[id].phase.timestampMs);
      }
    case AskIn(id) =>
      hide GateState.Ask, GateState.LetsIn;
      if Asks(server, id) { AskKeeps(server.gate, FrameOf(server, id).0, FrameOf(server, id).1); }
    case Disconnect(id) =>
      hide GateState.WithoutStreams, GateState.Quorum;
      if id in server.streams { WithoutStreamsRest(server.gate, server.streams[id].marked); }
    case Join(id, session) =>
      hide GateState.Quorum;
    case _ =>
  }

  /** The devices of the open streams are among those heard. */
  ghost predicate DevicesHeard(server: Server, heard: Heard)
  {
    && server.gate.observed == heard.devices
    && forall s | s in server.streams :: server.streams[s].marked <= server.gate.observed
  }

  lemma AskKeepsObserved(gate: GateState, device: string, timestampMs: int)
    ensures gate.Ask(device, timestampMs).observed == gate.observed
  {
    hide GateState.Clocks, GateState.Quorum;
  }

  lemma StepDevices(server: Server, step: Step, heard: Heard)
    requires OwnerExact(server.gate, server.streams) && DevicesHeard(server, heard)
    ensures DevicesHeard(Next(server, step), HeardAfter(server, step, heard))
  {
    match step
    case AskIn(id) =>
      hide GateState.Ask, GateState.LetsIn, OwnerExact;
      if Asks(server, id) { AskKeepsObserved(server.gate, FrameOf(server, id).0, FrameOf(server, id).1); }
    case Disconnect(id) =>
      hide GateState.WithoutStreams, GateState.Quorum, OwnerExact;
      if id in server.streams { WithoutStreamsRest(server.gate, server.streams[id].marked); }
    case Join(id, session) =>
      JoinReset(server, id, session);
      hide GateState.Quorum, OwnerExact;
    case _ =>
      hide OwnerExact;
  }

  lemma JoinReset(server: Server, id: nat, session: string)
    requires OwnerExact(server.gate, server.streams)
    ensures Next(server, Join(id, session)).collection != server.collection ==>
              && server.streams == map[]
              && Next(server, Join(id, session)).streams == map[id := Stream(session, {}, Waiting)]
  {
    if Passes(server.gate, session) {
      assert |server.streams| == 0;
    }
  }

  lemma {:induction false} RunHears(server: Server, steps: seq<Step>, heard: Heard)
    requires CountsExact(server.gate, server.streams) && OwnerExact(server.gate, server.streams)
    requires PhasesSound(server.gate, server.streams)
    requires ClocksAreGreatest(server.gate, heard) && DevicesHeard(server, heard)
    ensures var after, all := RunSteps(server, steps), HeardIn(server, steps, heard);
            ClocksAreGreatest(after.gate, all) && DevicesHeard(after, all)
    decreases |steps|
  {
    if steps != [] {
      hide CountsExact, OwnerExact, PhasesSound, ClocksAreGreatest, DevicesHeard, Next, HeardAfter;
      StepExact(server, steps[0]);
      StepClocks(server, steps[0], heard);
      StepDevices(server, steps[0], heard);
      RunHears(Next(server, steps[0]), steps[1..], HeardAfter(server, steps[0], heard));
    }
  }

  /** In every interleaving, with a gate or without: a device's clock is the greatest time that
      was recorded for it in the collection, and the devices observed are those marked in it. */
  lemma {:induction false} ClocksAreRecorded(count: Option<nat>, deviceIds: set<string>, steps: seq<Step>)
    ensures var server := RunSteps(Start(count, deviceIds), steps);
            var heard := HeardIn(Start(count, deviceIds), steps, Heard({}, {}));
            && (forall d | d in server.gate.latest :: (d, server.gate.latest[d]) in heard.clocks)
            && (forall c | c in heard.clocks :: c.0 in server.gate.latest && c.1 <= server.gate.latest[c.0])
            && server.gate.observed == heard.devices
  {
    var start := Start(count, deviceIds);
    assert forall d :: Marking(map[], d) == {};
    assert CountsExact(start.gate, start.streams) && OwnerExact(start.gate, start.streams);
    assert PhasesSound(start.gate, start.streams);
    assert ClocksAreGreatest(start.gate, Heard({}, {})) && DevicesHeard(start, Heard({}, {}));
    hide CountsExact, OwnerExact, PhasesSound, Next, HeardIn, RunSteps;
    RunHears(start, steps, Heard({}, {}));
  }

  // ----- the first accepted frame -----

  /** The time of the first accepted frame of the collection. */
  function FirstOf(accepted: seq<Accepted>, collection: nat): Option<int>
  {
    if accepted == [] then None
    else if accepted[0].collection == collection then Some(accepted[0].timestampMs)
    else FirstOf(accepted[1..], collection)
  }

  ghost predicate FirstLogged(server: Server)
  {
    && server.gate.firstAcceptedMs == FirstOf(server.accepted, server.collection)
    && forall i | 0 <= i < |server.accepted| :: server.accepted[i].collection <= server.collection
  }

  lemma {:induction false} FirstAppend(accepted: seq<Accepted>, a: Accepted, collection: nat)
    ensures FirstOf(accepted + [a], collection)
            == if FirstOf(accepted, collection).Some? then FirstOf(accepted, collection)
               else if a.collection == collection then Some(a.timestampMs) else None
  {
    if accepted != [] {
      assert (accepted + [a])[1..] == accepted[1..] + [a];
      FirstAppend(accepted[1..], a, collection);
    }
  }

  lemma {:induction false} NoneOf(accepted: seq<Accepted>, collection: nat)
    requires forall i | 0 <= i < |accepted| :: accepted[i].collection < collection
    ensures FirstOf(accepted, collection).None?
  {
    if accepted != [] { NoneOf(accepted[1..], collection); }
  }

  lemma AskFirst(gate: GateState, device: string, timestampMs: int)
    ensures gate.Ask(device, timestampMs).firstAcceptedMs
            == if gate.LetsIn(device, timestampMs) && gate.firstAcceptedMs.None? then Some(timestampMs)
               else gate.firstAcceptedMs
  {
    hide GateState.Clocks, GateState.Quorum;
  }

  lemma StepFirst(server: Server, step: Step)
    requires FirstLogged(server)
    ensures FirstLogged(Next(server, step))
  {
    match step
    case AskIn(id) =>
      hide GateState.Ask, GateState.LetsIn, Streaming, FirstOf;
      if Asks(server, id) {
        var (device, timestampMs) := FrameOf(server, id);
        AskFirst(server.gate, device, timestampMs);
        FirstAppend(server.accepted, AskedFrame(server, id), server.collection);
      }
    case Disconnect(id) =>
      hide GateState.WithoutStreams, GateState.Quorum;
      if id in server.streams { WithoutStreamsRest(server.gate, server.streams[id].marked); }
    case Join(id, session) =>
      hide GateState.Quorum, FirstOf;
      NoneOf(server.accepted, server.collection + 1);
    case _ =>
  }

  lemma {:induction false} RunFirst(server: Server, steps: seq<Step>)
    requires FirstLogged(server)
    ensures FirstLogged(RunSteps(server, steps))
    decreases |steps|
  {
    if steps != [] {
      hide FirstLogged, Next;
      StepFirst(server, steps[0]);
      RunFirst(Next(server, steps[0]), steps[1..]);
    }
  }

  /** In every run the first accepted time is that of the collection's first accepted frame. */
  lemma {:induction false} FirstIsLogged(count: Option<nat>, deviceIds: set<string>, steps: seq<Step>)
    ensures var server := RunSteps(Start(count, deviceIds), steps);
            server.gate.firstAcceptedMs == FirstOf(server.accepted, server.collection)
  {
    hide RunSteps;
    RunFirst(Start(count, deviceIds), steps);
  }

  // ----- without a gate -----

  ghost predicate Ungated(gate: GateState)
  {
    gate.expectedCount.None? && gate.gateOpen && gate.started && !gate.stopped && gate.gateStartMs.None?
  }

  lemma StepUngated(server: Server, step: Step)
    requires Ungated(server.gate)
    ensures Ungated(Next(server, step).gate)
  {
    hide GateState.Quorum, GateState.Clocks, Streaming;
  }

  lemma {:induction false} RunUngated(server: Server, steps: seq<Step>)
    requires Ungated(server.gate)
    ensures Ungated(RunSteps(server, steps).gate)
    decreases |steps|
  {
    if steps != [] {
      hide Ungated, Next;
      StepUngated(server, steps[0]);
      RunUngated(Next(server, steps[0]), steps[1..]);
    }
  }

  /** With fewer than two devices expected nothing is held back but unexpected devices. */
  lemma {:induction false} UngatedLetsIn(count: Option<nat>, deviceIds: set<string>, steps: seq<Step>, id: nat)
    requires if deviceIds == {} then count.None? || count.value <= 1 else |deviceIds| == 1
    requires Asks(RunSteps(Start(count, deviceIds), steps), id)
    ensures var server := RunSteps(Start(count, deviceIds), steps);
            var (device, _) := FrameOf(server, id);
            Next(server, AskIn(id)).accepted
            == if deviceIds == {} || device in deviceIds then server.accepted + [AskedFrame(server, id)]
               else server.accepted
  {
    RunUngated(Start(count, deviceIds), steps);
    ConfigurationStays(Start(count, deviceIds), steps);
    hide RunSteps, Streaming, GateState.Clocks, GateState.Quorum;
  }

  /** Two devices or more are a gate: nothing is let in at first. */
  lemma {:induction false} GatedStartsClosed(count: Option<nat>, deviceIds: set<string>)
    ensures var gate, several := Start(count, deviceIds).gate,
                                 if deviceIds == {} then count.Some? && count.value > 1 else |deviceIds| > 1;
            && gate.expectedIds == deviceIds
            && gate.gateOpen == !several && gate.started == !several && !gate.stopped
            && (gate.expectedCount.Some? <==> several)
            && (several && deviceIds == {} ==> gate.expectedCount == count)
  {
    if deviceIds != {} {
      var d :| d in deviceIds;
      assert deviceIds == {d} + (deviceIds - {d});
    }
  }

  // ----- one stream -----

  /** A packet that a waiting stream receives has its clock recorded and is then asked about; its
      device is marked, and afterwards the stream waits for the next. */
  lemma {:induction false} PacketIsAsked(server: Server, id: nat, device: string, timestampMs: int)
    requires id in server.streams && server.streams[id].phase == Waiting
    ensures var received := Next(server, Receive(id, device, timestampMs));
            var recorded := Next(received, RecordClock(id));
            var asked := Next(recorded, AskIn(id));
            && Asks(recorded, id) && FrameOf(recorded, id) == (device, timestampMs)
            && id in asked.streams
            && asked.streams[id]
               == Stream(server.streams[id].session, server.streams[id].marked + {device}, Waiting)
  {
    hide GateState.MarkActive, GateState.Record, GateState.Ask, GateState.LetsIn, Streaming;
  }

  function StreamOf(step: Step): nat
  {
    step.stream
  }

  /** Steps of other streams leave a stream where it is. */
  lemma {:induction false} OthersLeaveStream(server: Server, step: Step, id: nat)
    requires StreamOf(step) != id
    ensures id in Next(server, step).streams <==> id in server.streams
    ensures id in server.streams ==> Next(server, step).streams[id] == server.streams[id]
  {
    hide GateState.Acquire, GateState.MarkActive, GateState.Record, GateState.Ask, GateState.LetsIn, GateState.Close,
      GateState.Release, GateState.MayAcquire, Streaming;
  }

  /** A stream that disconnects gives up its devices and then leaves. */
  lemma {:induction false} DisconnectedLeaves(server: Server, id: nat)
    requires id in server.streams && server.streams[id].phase != Leaving
    ensures var gone := Next(server, Disconnect(id));
            && id in gone.streams && gone.streams[id].marked == {} && gone.streams[id].phase == Leaving
            && Next(gone, Leave(id)).streams == server.streams - {id}
  {
    hide GateState.Close, GateState.Release;
  }
}

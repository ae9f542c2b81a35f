/** One control transaction, and the memories a list of committed events leaves behind. */
module ControlTransaction {
  import opened Wrappers
  import opened TorqueAllocation

  type Vector = seq<real>

  /** What is read from the vehicle: the axle stations, the controller's input and the wheel speeds. */
  datatype Observation = Observation(stations: Vector, input: Vector, wheelSpeeds: Vector)

  datatype ControllerResult = ControllerResult(next: Vector, requests: Channels)

  datatype Conditioning = Conditioning(limits: RawLimits, torques: Channels, memory: Channels)

  /** The operating-point evaluator, controller recurrence and torque conditioner: deterministic, may fail. */
  datatype Equipment = Equipment(
    evaluate: Vector -> Option<Vector>,
    step: (Vector, Vector, Vector) -> Option<ControllerResult>,
    condition: (Channels, Vector, Channels) -> Option<Conditioning>)

  /** What an event leaves: controller state, conditioner memory and the torques it computed. */
  datatype Memory = Memory(controller: Vector, conditioner: Channels, torques: Channels)

  /** The event's new memory, or None where a part fails. The probe's memory is never part of it. */
  function Transact(e: Equipment, o: Observation, controller: Vector, conditioner: Channels): Option<Memory> {
    match e.evaluate(o.stations)
    case None => None
    case Some(point) =>
      match e.step(o.input, point, controller)
      case None => None
      case Some(control) =>
        match e.condition(Probe(control.requests), o.wheelSpeeds, conditioner)
        case None => None
        case Some(probe) =>
          match e.condition(Allocated(control.requests, probe.limits), o.wheelSpeeds, conditioner)
          case None => None
          case Some(result) => Some(Memory(control.next, result.memory, result.torques))
  }

  /** A final request: each axle's allocation of the controller's request under the limits the probe found. */
  ghost predicate IsFinal(requests: Channels, probe: Conditioning, final: Channels) {
    forall axle :: 0 <= axle < AXLES ==> AxleAllocated(requests, probe.limits, final, axle)
  }

  /** Everything an event's new memory must come from; both conditionings start from the same old memory. */
  ghost predicate ComesFrom(e: Equipment, o: Observation, controller: Vector, conditioner: Channels, m: Memory,
                            point: Vector, control: ControllerResult, probe: Conditioning, final: Channels) {
    && e.evaluate(o.stations) == Some(point) && e.step(o.input, point, controller) == Some(control)
    && e.condition(Probe(control.requests), o.wheelSpeeds, conditioner) == Some(probe)
    && IsFinal(control.requests, probe, final)
    && e.condition(final, o.wheelSpeeds, conditioner).Some?
    && var result := e.condition(final, o.wheelSpeeds, conditioner).value;
       m == Memory(control.next, result.memory, result.torques)
  }

  /** The transaction gives a memory exactly when it comes from an evaluated point, a step, a probe and an allocated request. */
  lemma TransactMeaning(e: Equipment, o: Observation, controller: Vector, conditioner: Channels, m: Memory)
    ensures Transact(e, o, controller, conditioner) == Some(m) <==>
            exists point, control, probe, final :: ComesFrom(e, o, controller, conditioner, m, point, control, probe, final)
  {
    hide AxleAllocated, Allocated, Probe;
    if Transact(e, o, controller, conditioner) == Some(m) {
      var point := e.evaluate(o.stations).value;
      var control := e.step(o.input, point, controller).value;
      var probe := e.condition(Probe(control.requests), o.wheelSpeeds, conditioner).value;
      FinalIsAllocated(control.requests, probe, Allocated(control.requests, probe.limits));
      assert ComesFrom(e, o, controller, conditioner, m, point, control, probe, Allocated(control.requests, probe.limits));
    }
    if point, control, probe, final :| ComesFrom(e, o, controller, conditioner, m, point, control, probe, final) {
      FinalIsAllocated(control.requests, probe, final);
    }
  }

  lemma FinalIsAllocated(requests: Channels, probe: Conditioning, final: Channels)
    ensures IsFinal(requests, probe, final) <==> final == Allocated(requests, probe.limits)
  {
    hide IsAllocation, Allocated;
    if IsFinal(requests, probe, final) {
      AllocatedIsUnique(requests, probe.limits, final);
    }
    forall axle | 0 <= axle < AXLES ensures AxleAllocated(requests, probe.limits, Allocated(requests, probe.limits), axle) {
      AllocatedIsAllocation(requests, probe.limits, axle);
    }
  }

  /** The transaction as computed: probe, allocate by the probe's limits, condition from the same memory. */
  method ComputeTransaction(e: Equipment, o: Observation, controller: Vector, conditioner: Channels)
    returns (r: Option<Memory>)
    ensures r == Transact(e, o, controller, conditioner)
  {
    var point := e.evaluate(o.stations);
    if point.None? { return None; }
    var control := e.step(o.input, point.value, controller);
    if control.None? { return None; }
    var probeRequests := MakeCommonModeProbeRequest(control.value.requests);
    var probe := e.condition(probeRequests, o.wheelSpeeds, conditioner);
    if probe.None? { return None; }
    var prioritized := ApplyLongitudinalCommonModePriority(control.value.requests, probe.value.limits);
    var result := e.condition(prioritized, o.wheelSpeeds, conditioner);
    if result.None? { return None; }
    r := Some(Memory(control.value.next, result.value.memory, result.value.torques));
  }

  /** The memory after the transactions of all observations in turn; None once one fails. */
  function Fold(e: Equipment, start: Memory, observations: seq<Observation>): Option<Memory> {
    if observations == [] then Some(start)
    else
      match Fold(e, start, observations[..|observations| - 1])
      case None => None
      case Some(m) => Transact(e, observations[|observations| - 1], m.controller, m.conditioner)
  }
}

/** Online statistics of one run, and what they amount to after the fact. */
module RunReports {
  import opened Wrappers
  import opened SceneStream

  datatype Descriptor = Descriptor(content: string, bodyNames: seq<string>, scalarNames: seq<string>)

  datatype Frame = Frame(bodies: seq<seq<real>>, scalarValues: seq<real>, scalarStatuses: seq<nat>)

  /** What decoding a state guarantees: one status in {0, 1, 2} for each scalar. */
  predicate WellFormedFrame(f: Frame) {
    && |f.scalarValues| == |f.scalarStatuses|
    && forall i :: 0 <= i < |f.scalarStatuses| ==> f.scalarStatuses[i] <= 2
  }

  type StateFrame = f: Frame | WellFormedFrame(f) witness Frame([], [], [])

  datatype Message =
    | DescriptionMessage(key: Key, time: real, descriptor: Descriptor)
    | StateMessage(key: Key, time: real, frame: StateFrame, names: Option<Descriptor>)

  /** How often a scalar was not ready, valid or a placeholder. */
  datatype StatusCounts = StatusCounts(notReady: nat, valid: nat, placeholder: nat) {
    function Sum(): nat { notReady + valid + placeholder }

    function Bump(status: nat): (r: StatusCounts)
      requires status <= 2
      ensures r.Sum() == Sum() + 1
    {
      if status == 0 then this.(notReady := notReady + 1)
      else if status == 1 then this.(valid := valid + 1)
      else this.(placeholder := placeholder + 1)
    }
  }

  /** The fields that stay None until the first state arrives. */
  datatype Cadence = Cadence(
    firstSequence: nat, lastSequence: nat, firstTime: real, lastTime: real,
    minimumTime: real, maximumTime: real, lastArrival: real)

  datatype Report = Report(
    descriptions: nat, states: nat, unboundStates: nat, cadence: Option<Cadence>,
    gaps: int, sameTime: nat, backwards: nat, intervalSum: real, intervalMax: real,
    statusCounts: seq<StatusCounts>)

  const EMPTY_REPORT := Report(0, 0, 0, None, 0, 0, 0, 0.0, 0.0, [])

  function MinReal(a: real, b: real): real { if b < a then b else a }

  function MaxReal(a: real, b: real): real { if a < b then b else a }

  function BumpAll(counts: seq<StatusCounts>, statuses: seq<nat>): (r: seq<StatusCounts>)
    requires |counts| == |statuses|
    requires forall i :: 0 <= i < |statuses| ==> statuses[i] <= 2
    ensures |r| == |counts|
    ensures forall i :: 0 <= i < |counts| ==> r[i] == counts[i].Bump(statuses[i])
  {
    seq(|counts|, i requires 0 <= i < |counts| => counts[i].Bump(statuses[i]))
  }

  /** The strict zip of `observe` demands as many statuses as counters once a run is described. */
  predicate ZipFits(r: Report, m: Message, descriptor: Option<Descriptor>) {
    && (m.DescriptionMessage? ==> descriptor.Some?)
    && (m.StateMessage? && descriptor.Some? ==> |r.statusCounts| == |m.frame.scalarStatuses|)
    && (0 < r.states ==> r.cadence.Some?)
  }

  function Observe(r: Report, m: Message, descriptor: Option<Descriptor>, arrival: real): Report
    requires ZipFits(r, m, descriptor)
  {
    match m
    case DescriptionMessage(_, _, _) =>
      r.(descriptions := r.descriptions + 1,
         statusCounts := if r.statusCounts == []
                         then seq(|descriptor.value.scalarNames|, _ => StatusCounts(0, 0, 0))
                         else r.statusCounts)
    case StateMessage(key, time, frame, _) =>
      var s := if 0 < r.states then Continue(r, key.sequence, time, arrival)
               else r.(cadence := Some(Cadence(key.sequence, key.sequence, time, time, time, time, arrival)));
      if descriptor.None? then s.(states := r.states + 1, unboundStates := r.unboundStates + 1)
      else s.(states := r.states + 1, statusCounts := BumpAll(r.statusCounts, frame.scalarStatuses))
  }

  /** The cadence after a state that follows an earlier one. */
  function Continue(r: Report, sequence: nat, time: real, arrival: real): Report
    requires r.cadence.Some?
  {
    var c := r.cadence.value;
    r.(gaps := r.gaps + (sequence - c.lastSequence - 1),
       sameTime := r.sameTime + (if time == c.lastTime then 1 else 0),
       backwards := r.backwards + (if time < c.lastTime then 1 else 0),
       intervalSum := r.intervalSum + (arrival - c.lastArrival),
       intervalMax := MaxReal(r.intervalMax, arrival - c.lastArrival),
       cadence := Some(c.(minimumTime := MinReal(c.minimumTime, time),
                          maximumTime := MaxReal(c.maximumTime, time),
                          lastSequence := sequence, lastTime := time, lastArrival := arrival)))
  }

  // ----- the online report against the whole list of observations

  datatype Observation = Observation(message: Message, descriptor: Option<Descriptor>, arrival: real)

  function Count<T>(s: seq<T>, p: T -> bool): nat {
    if s == [] then 0 else Count(s[..|s| - 1], p) + (if p(s[|s| - 1]) then 1 else 0)
  }

  /** The number of neighbours in `s` related by `p`. */
  function CountPairs<T>(s: seq<T>, p: (T, T) -> bool): nat {
    if |s| < 2 then 0
    else CountPairs(s[..|s| - 1], p) + (if p(s[|s| - 2], s[|s| - 1]) then 1 else 0)
  }

  predicate SameTime(a: Observation, b: Observation) { a.message.time == b.message.time }

  predicate TimeFell(a: Observation, b: Observation) { b.message.time < a.message.time }

  predicate Unbound(o: Observation) { o.descriptor.None? }

  /** The bound states in which scalar `i` has the given status. */
  function HasStatus(i: nat, status: nat): Observation -> bool {
    (o: Observation) =>
      && o.message.StateMessage? && o.descriptor.Some?
      && i < |o.message.frame.scalarStatuses| && o.message.frame.scalarStatuses[i] == status
  }

  function StateObservations(obs: seq<Observation>): (r: seq<Observation>)
    ensures forall o :: o in r ==> o.message.StateMessage?
  {
    if obs == [] then []
    else
      var o := obs[|obs| - 1];
      StateObservations(obs[..|obs| - 1]) + (if o.message.StateMessage? then [o] else [])
  }

  /** First and last state, gaps and elapsed arrival time, as functions of the whole list of states. */
  ghost predicate EndsAccount(r: Report, states: seq<Observation>)
    requires forall o :: o in states ==> o.message.StateMessage?
  {
    && (r.cadence.Some? <==> states != [])
    && r.sameTime == CountPairs(states, SameTime)
    && r.backwards == CountPairs(states, TimeFell)
    && if states == [] then r.gaps == 0 && r.intervalSum == 0.0
       else
         var first, last, c := states[0], states[|states| - 1], r.cadence.value;
         && c.firstSequence == first.message.key.sequence && c.lastSequence == last.message.key.sequence
         && c.firstTime == first.message.time && c.lastTime == last.message.time
         && c.lastArrival == last.arrival
         && r.gaps == c.lastSequence - c.firstSequence + 1 - |states|
         && r.intervalSum == last.arrival - first.arrival
  }

  ghost predicate ExtremesAccount(c: Cadence, states: seq<Observation>)
    requires forall o :: o in states ==> o.message.StateMessage?
  {
    && (forall i :: 0 <= i < |states| ==> c.minimumTime <= states[i].message.time <= c.maximumTime)
    && (exists i :: 0 <= i < |states| && states[i].message.time == c.minimumTime)
    && (exists i :: 0 <= i < |states| && states[i].message.time == c.maximumTime)
  }

  function Interval(states: seq<Observation>, i: nat): real
    requires 0 < i < |states|
  {
    states[i].arrival - states[i - 1].arrival
  }

  /** The maximum of zero and every interval between neighbours. */
  ghost predicate IsLongestInterval(longest: real, states: seq<Observation>) {
    && (forall i :: 0 < i < |states| ==> Interval(states, i) <= longest)
    && (longest == 0.0 || exists i :: 0 < i < |states| && Interval(states, i) == longest)
    && 0.0 <= longest
  }

  ghost predicate CadenceAccounts(r: Report, states: seq<Observation>)
    requires forall o :: o in states ==> o.message.StateMessage?
  {
    && EndsAccount(r, states)
    && IsLongestInterval(r.intervalMax, states)
    && (states != [] ==> ExtremesAccount(r.cadence.value, states))
  }

  /** The status counters, as functions of the whole list of states. */
  ghost predicate StatusAccounts(r: Report, states: seq<Observation>)
    requires forall o :: o in states ==> o.message.StateMessage?
  {
    && (forall o :: o in states && o.descriptor.Some? ==> |o.message.frame.scalarStatuses| <= |r.statusCounts|)
    && (forall i :: 0 <= i < |r.statusCounts| ==>
          && r.statusCounts[i].notReady == Count(states, HasStatus(i, 0))
          && r.statusCounts[i].valid == Count(states, HasStatus(i, 1))
          && r.statusCounts[i].placeholder == Count(states, HasStatus(i, 2)))
  }

  ghost predicate Accounts(r: Report, obs: seq<Observation>) {
    var states := StateObservations(obs);
    && r.states == |states|
    && r.descriptions + r.states == |obs|
    && r.unboundStates == Count(states, Unbound)
    && CadenceAccounts(r, states)
    && StatusAccounts(r, states)
  }

  lemma {:induction false} NoneCounted<T(!new)>(s: seq<T>, p: T -> bool)
    requires forall x :: x in s ==> !p(x)
    ensures Count(s, p) == 0
  {
    if s != [] {
      NoneCounted(s[..|s| - 1], p);
    }
  }

  lemma CountAppend<T>(s: seq<T>, x: T, p: T -> bool)
    ensures Count(s + [x], p) == Count(s, p) + (if p(x) then 1 else 0)
  {
    assert (s + [x])[..|s|] == s;
  }

  lemma CountPairsAppend<T>(s: seq<T>, x: T, p: (T, T) -> bool)
    requires s != []
    ensures CountPairs(s + [x], p) == CountPairs(s, p) + (if p(s[|s| - 1], x) then 1 else 0)
  {
    assert (s + [x])[..|s|] == s;
  }

  lemma LongestStep(longest: real, states: seq<Observation>, o: Observation)
    requires IsLongestInterval(longest, states)
    ensures IsLongestInterval(if states == [] then longest
                              else MaxReal(longest, o.arrival - states[|states| - 1].arrival), states + [o])
  {
    var all := states + [o];
    forall i | 0 < i < |states| ensures Interval(all, i) == Interval(states, i) {}
    if states != [] {
      assert Interval(all, |states|) == o.arrival - states[|states| - 1].arrival;
    }
  }

  lemma ExtremesStep(c: Cadence, states: seq<Observation>, o: Observation, c': Cadence)
    requires forall x :: x in states ==> x.message.StateMessage?
    requires o.message.StateMessage? && states != [] && ExtremesAccount(c, states)
    requires c'.minimumTime == MinReal(c.minimumTime, o.message.time)
    requires c'.maximumTime == MaxReal(c.maximumTime, o.message.time)
    ensures ExtremesAccount(c', states + [o])
  {
    var all := states + [o];
    assert all[|states|] == o;
    var low :| 0 <= low < |states| && states[low].message.time == c.minimumTime;
    var high :| 0 <= high < |states| && states[high].message.time == c.maximumTime;
    assert all[low] == states[low] && all[high] == states[high];
  }

  lemma EndsStep(r: Report, states: seq<Observation>, o: Observation, r': Report)
    requires forall x :: x in states ==> x.message.StateMessage?
    requires o.message.StateMessage? && EndsAccount(r, states) && r.states == |states|
    requires ZipFits(r, o.message, o.descriptor) && r' == Observe(r, o.message, o.descriptor, o.arrival)
    ensures EndsAccount(r', states + [o])
  {
    if states != [] {
      CountPairsAppend(states, o, SameTime);
      CountPairsAppend(states, o, TimeFell);
    }
  }

  lemma CadenceStep(r: Report, states: seq<Observation>, o: Observation, r': Report)
    requires forall x :: x in states ==> x.message.StateMessage?
    requires o.message.StateMessage? && CadenceAccounts(r, states) && r.states == |states|
    requires ZipFits(r, o.message, o.descriptor) && r' == Observe(r, o.message, o.descriptor, o.arrival)
    ensures CadenceAccounts(r', states + [o])
  {
    EndsStep(r, states, o, r');
    LongestStep(r.intervalMax, states, o);
    if states != [] {
      ExtremesStep(r.cadence.value, states, o, r'.cadence.value);
    } else {
      assert (states + [o])[0] == o;
    }
  }

  lemma StatusStep(r: Report, states: seq<Observation>, o: Observation, r': Report)
    requires forall x :: x in states ==> x.message.StateMessage?
    requires o.message.StateMessage? && StatusAccounts(r, states)
    requires ZipFits(r, o.message, o.descriptor) && r' == Observe(r, o.message, o.descriptor, o.arrival)
    ensures StatusAccounts(r', states + [o])
  {
    forall i | 0 <= i < |r'.statusCounts|
      ensures r'.statusCounts[i].notReady == Count(states + [o], HasStatus(i, 0))
      ensures r'.statusCounts[i].valid == Count(states + [o], HasStatus(i, 1))
      ensures r'.statusCounts[i].placeholder == Count(states + [o], HasStatus(i, 2))
    {
      CountAppend(states, o, HasStatus(i, 0));
      CountAppend(states, o, HasStatus(i, 1));
      CountAppend(states, o, HasStatus(i, 2));
    }
  }

  lemma StatusStart(r: Report, states: seq<Observation>, o: Observation, r': Report)
    requires forall x :: x in states ==> x.message.StateMessage?
    requires o.message.DescriptionMessage? && StatusAccounts(r, states)
    requires ZipFits(r, o.message, o.descriptor) && r' == Observe(r, o.message, o.descriptor, o.arrival)
    ensures StatusAccounts(r', states)
  {
    if r.statusCounts == [] {
      forall i, status | 0 <= i < |r'.statusCounts| && 0 <= status <= 2
        ensures Count(states, HasStatus(i, status)) == 0
      {
        NoneCounted(states, HasStatus(i, status));
      }
    }
  }

  /** One more observation keeps the online report equal to the offline account. */
  lemma ObserveKeepsAccount(r: Report, obs: seq<Observation>, o: Observation)
    requires Accounts(r, obs) && ZipFits(r, o.message, o.descriptor)
    ensures Accounts(Observe(r, o.message, o.descriptor, o.arrival), obs + [o])
  {
    var states := StateObservations(obs);
    var r' := Observe(r, o.message, o.descriptor, o.arrival);
    assert (obs + [o])[..|obs|] == obs;
    if o.message.StateMessage? {
      CadenceStep(r, states, o, r');
      StatusStep(r, states, o, r');
      CountAppend(states, o, Unbound);
    } else {
      StatusStart(r, states, o, r');
      assert states + [] == states;
    }
  }
}

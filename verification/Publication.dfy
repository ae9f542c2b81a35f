/**
 * Publication of one output path by any number of runners and failure publishers.
 * Every separate filesystem operation is one step, and steps of different actors interleave freely.
 */
module Publication {
  import opened Wrappers

  /** A directory as it stands: who created it and the files written so far. */
  datatype Dir = Dir(maker: nat, entries: seq<string>)

  /** The failure publisher's directory and the file inside it, once opened. */
  datatype Temporary = Temporary(maker: nat, draft: Option<string>)

  datatype Result = Result(maker: nat, text: string)

  /** The four names that matter: X, X.partial, X.failure_result.json and X.failure_result.json.partial. */
  datatype Disk = Disk(
    final: Option<Dir>, partial: Option<Dir>, result: Option<Result>, temporary: Option<Temporary>)

  // ----- success directories

  datatype RunnerPhase =
    | Begun | FinalClear | PartialClear   // inside the constructor
    | Owning | PublishClear               // constructed; inside Publish past its check
    | Emptying                            // inside the destructor
    | Published | Finished                // published; refused, cleaned up or crashed

  datatype Runner = Runner(phase: RunnerPhase, written: seq<string>)

  datatype RunnerAction =
    | CheckFinal | CheckPartial | CreatePartial | WriteFile(name: string)
    | CheckBeforePublish | Rename | RenameFails | EmptyPartial | RemovePartial | CrashRunner

  /** One operation of runner `i`; an action that does not fit its phase does nothing. */
  function RunnerStep(d: Disk, r: Runner, i: nat, a: RunnerAction): (Disk, Runner) {
    match a
    case CheckFinal =>
      if r.phase.Begun? then (d, r.(phase := if d.final.Some? then Finished else FinalClear)) else (d, r)
    case CheckPartial =>
      if r.phase.FinalClear? then (d, r.(phase := if d.partial.Some? then Finished else PartialClear)) else (d, r)
    case CreatePartial =>
      if !r.phase.PartialClear? then (d, r)
      else if d.partial.Some? then (d, r.(phase := Finished))
      else (d.(partial := Some(Dir(i, []))), r.(phase := Owning))
    case WriteFile(name) =>
      if r.phase.Owning? && d.partial.Some? then
        (d.(partial := Some(d.partial.value.(entries := d.partial.value.entries + [name]))),
         r.(written := r.written + [name]))
      else (d, r)
    case CheckBeforePublish =>
      if r.phase.Owning? && d.final.None? then (d, r.(phase := PublishClear)) else (d, r)
    case Rename =>
      // The rename itself replaces whatever stands at the final path.
      if r.phase.PublishClear? && d.partial.Some? then
        (d.(final := d.partial, partial := None), r.(phase := Published))
      else (d, r)
    case RenameFails => if r.phase.PublishClear? then (d, r.(phase := Owning)) else (d, r)
    case EmptyPartial =>
      // remove_all deletes the contents first, without asking whose they are.
      if r.phase.Owning? || r.phase.Emptying? then
        (if d.partial.Some? then d.(partial := Some(d.partial.value.(entries := []))) else d, r.(phase := Emptying))
      else (d, r)
    case RemovePartial =>
      if r.phase.Emptying? then (d.(partial := None), r.(phase := Finished)) else (d, r)
    case CrashRunner => if r.phase.Published? then (d, r) else (d, r.(phase := Finished))
  }

  // ----- failure results

  datatype PublisherPhase =
    | Ready | OutputClear | ResultClear | TemporaryClear  // preflight checks
    | Holding | Opened | Written                          // the owned temporary directory
    | Linked(published: bool)                             // the link was made or refused; cleanup is left
    | Over(published: bool)

  datatype Publisher = Publisher(phase: PublisherPhase, payload: string)

  datatype PublisherAction =
    | CheckOutput | CheckResult | CheckTemporary | CreateTemporary | OpenDraft | WriteDraft | Link
    | FailWriting | RemoveTemporary | CrashPublisher

  /** One operation of publisher `j`. */
  function PublisherStep(d: Disk, p: Publisher, j: nat, a: PublisherAction): (Disk, Publisher) {
    match a
    case CheckOutput =>
      if p.phase.Ready? then (d, p.(phase := if d.final.Some? then Over(false) else OutputClear)) else (d, p)
    case CheckResult =>
      if p.phase.OutputClear? then (d, p.(phase := if d.result.Some? then Over(false) else ResultClear)) else (d, p)
    case CheckTemporary =>
      if p.phase.ResultClear? then (d, p.(phase := if d.temporary.Some? then Over(false) else TemporaryClear))
      else (d, p)
    case CreateTemporary =>
      if !p.phase.TemporaryClear? then (d, p)
      else if d.temporary.Some? then (d, p.(phase := Over(false)))
      else (d.(temporary := Some(Temporary(j, None))), p.(phase := Holding))
    case OpenDraft =>
      if p.phase.Holding? && d.temporary.Some? then
        (d.(temporary := Some(d.temporary.value.(draft := Some("")))), p.(phase := Opened))
      else (d, p)
    case WriteDraft =>
      if p.phase.Opened? && d.temporary.Some? then
        (d.(temporary := Some(d.temporary.value.(draft := Some(p.payload)))), p.(phase := Written))
      else (d, p)
    case FailWriting =>
      if p.phase.Holding? || p.phase.Opened? || p.phase.Written? then (d, p.(phase := Linked(false))) else (d, p)
    case Link =>
      // A hard link is made only where nothing stands.
      if !p.phase.Written? then (d, p)
      else if d.result.Some? || d.temporary.None? || d.temporary.value.draft.None? then (d, p.(phase := Linked(false)))
      else (d.(result := Some(Result(j, d.temporary.value.draft.value))), p.(phase := Linked(true)))
    case RemoveTemporary =>
      if p.phase.Linked? then (d.(temporary := None), p.(phase := Over(p.phase.published))) else (d, p)
    case CrashPublisher =>
      (d, p.(phase := Over((p.phase.Linked? || p.phase.Over?) && p.phase.published)))
  }

  // ----- the system

  datatype System = System(disk: Disk, runners: seq<Runner>, publishers: seq<Publisher>)

  datatype Action = RunnerActs(i: nat, runner: RunnerAction) | PublisherActs(j: nat, publisher: PublisherAction)

  function Apply(s: System, a: Action): System {
    match a
    case RunnerActs(i, act) =>
      if i < |s.runners| then
        var (d, r) := RunnerStep(s.disk, s.runners[i], i, act);
        s.(disk := d, runners := s.runners[i := r])
      else s
    case PublisherActs(j, act) =>
      if j < |s.publishers| then
        var (d, p) := PublisherStep(s.disk, s.publishers[j], j, act);
        s.(disk := d, publishers := s.publishers[j := p])
      else s
  }

  /** The system after a schedule. */
  function After(s: System, schedule: seq<Action>): System {
    if schedule == [] then s else Apply(After(s, schedule[..|schedule| - 1]), schedule[|schedule| - 1])
  }

  /** Any number of actors that have done nothing yet, and whatever earlier processes left on disk. */
  function Start(d: Disk, runners: nat, payloads: seq<string>): System {
    System(d, seq(runners, _ => Runner(Begun, [])),
           seq(|payloads|, j requires 0 <= j < |payloads| => Publisher(Ready, payloads[j])))
  }

  // ----- invariant: the partial directory is a lock

  predicate Owns(r: Runner) { r.phase.Owning? || r.phase.PublishClear? || r.phase.Emptying? }

  predicate HoldsTemporary(p: Publisher) {
    p.phase.Holding? || p.phase.Opened? || p.phase.Written? || p.phase.Linked?
  }

  predicate HasPublished(p: Publisher) { (p.phase.Linked? || p.phase.Over?) && p.phase.published }

  ghost predicate RunnerOk(d: Disk, r: Runner, i: nat) {
    && (Owns(r) ==> d.partial.Some? && d.partial.value.maker == i)
    && (r.phase.Owning? || r.phase.PublishClear? ==> d.partial.value.entries == r.written)
    && (r.phase.PublishClear? ==> d.final.None?)
    && (r.phase.Published? ==> d.final == Some(Dir(i, r.written)))
    && (r.phase.Begun? || r.phase.FinalClear? || r.phase.PartialClear? ==> r.written == [])
  }

  ghost predicate PublisherOk(d: Disk, p: Publisher, j: nat) {
    && (HoldsTemporary(p) ==> d.temporary.Some? && d.temporary.value.maker == j)
    && (p.phase.Written? ==> d.temporary.value.draft == Some(p.payload))
    && (HasPublished(p) ==> d.result == Some(Result(j, p.payload)))
  }

  ghost predicate Inv(s: System) {
    && (forall i :: 0 <= i < |s.runners| ==> RunnerOk(s.disk, s.runners[i], i))
    && (forall j :: 0 <= j < |s.publishers| ==> PublisherOk(s.disk, s.publishers[j], j))
  }

  /** What one step never does: replace or remove a published directory or result. */
  ghost predicate Keeps(d: Disk, d': Disk) {
    && (d.final.Some? ==> d'.final == d.final)
    && (d.result.Some? ==> d'.result == d.result)
  }

  /** A partial directory goes, or changes, only by its maker's own step. */
  ghost predicate TouchesOwnOnly(d: Disk, d': Disk, a: Action) {
    && (d.partial.Some? && d'.partial != d.partial ==> a.RunnerActs? && a.i == d.partial.value.maker)
    && (d.temporary.Some? && d'.temporary != d.temporary ==> a.PublisherActs? && a.j == d.temporary.value.maker)
  }

  lemma RunnerStepOk(s: System, i: nat, a: RunnerAction)
    requires Inv(s) && i < |s.runners|
    ensures var s' := Apply(s, RunnerActs(i, a));
            Inv(s') && Keeps(s.disk, s'.disk) && TouchesOwnOnly(s.disk, s'.disk, RunnerActs(i, a))
  {
    var s' := Apply(s, RunnerActs(i, a));
    assert RunnerOk(s.disk, s.runners[i], i);
    forall k | 0 <= k < |s'.runners| ensures RunnerOk(s'.disk, s'.runners[k], k) {
      assert RunnerOk(s.disk, s.runners[k], k);
    }
    forall j | 0 <= j < |s'.publishers| ensures PublisherOk(s'.disk, s'.publishers[j], j) {
      assert PublisherOk(s.disk, s.publishers[j], j);
    }
  }

  lemma PublisherStepOk(s: System, j: nat, a: PublisherAction)
    requires Inv(s) && j < |s.publishers|
    ensures var s' := Apply(s, PublisherActs(j, a));
            Inv(s') && Keeps(s.disk, s'.disk) && TouchesOwnOnly(s.disk, s'.disk, PublisherActs(j, a))
  {
    var s' := Apply(s, PublisherActs(j, a));
    assert PublisherOk(s.disk, s.publishers[j], j);
    forall k | 0 <= k < |s'.publishers| ensures PublisherOk(s'.disk, s'.publishers[k], k) {
      assert PublisherOk(s.disk, s.publishers[k], k);
    }
    forall i | 0 <= i < |s'.runners| ensures RunnerOk(s'.disk, s'.runners[i], i) {
      assert RunnerOk(s.disk, s.runners[i], i);
    }
  }

  /** Every step, of any actor, keeps the invariant and every published artefact. */
  lemma StepOk(s: System, a: Action)
    requires Inv(s)
    ensures Inv(Apply(s, a)) && Keeps(s.disk, Apply(s, a).disk) && TouchesOwnOnly(s.disk, Apply(s, a).disk, a)
  {
    match a
    case RunnerActs(i, act) =>
      if i < |s.runners| {
        RunnerStepOk(s, i, act);
      }
    case PublisherActs(j, act) =>
      if j < |s.publishers| {
        PublisherStepOk(s, j, act);
      }
  }

  /** An actor that is done does nothing more; a crash or a failed rename leaves the disk, and a crash ends the actor. */
  lemma InterruptionsLeaveDisk(d: Disk, r: Runner, p: Publisher, i: nat, a: RunnerAction, b: PublisherAction)
    ensures r.phase in {Finished, Published} ==> RunnerStep(d, r, i, a) == (d, r)
    ensures p.phase.Over? ==> PublisherStep(d, p, i, b) == (d, p)
    ensures r.phase == PublishClear ==> RunnerStep(d, r, i, RenameFails) == (d, r.(phase := Owning))
    ensures r.phase != Published ==> RunnerStep(d, r, i, CrashRunner) == (d, r.(phase := Finished))
    ensures PublisherStep(d, p, i, CrashPublisher) == (d, p.(phase := Over(HasPublished(p))))
  {
  }

  // ----- every schedule

  lemma {:induction false} ScheduleInv(s: System, schedule: seq<Action>)
    requires Inv(s)
    ensures Inv(After(s, schedule))
    ensures |After(s, schedule).runners| == |s.runners| && |After(s, schedule).publishers| == |s.publishers|
  {
    if schedule != [] {
      ScheduleInv(s, schedule[..|schedule| - 1]);
      StepOk(After(s, schedule[..|schedule| - 1]), schedule[|schedule| - 1]);
    }
  }

  /** In no interleaving do two runners own the partial directory, publish, or share a temporary directory. */
  lemma AtMostOne(d: Disk, runners: nat, payloads: seq<string>, schedule: seq<Action>, i: nat, k: nat)
    ensures var s := After(Start(d, runners, payloads), schedule);
            && (i < |s.runners| && k < |s.runners| && i != k ==>
                  !(Owns(s.runners[i]) && Owns(s.runners[k]))
                  && !(s.runners[i].phase.Published? && s.runners[k].phase.Published?))
            && (i < |s.publishers| && k < |s.publishers| && i != k ==>
                  !(HoldsTemporary(s.publishers[i]) && HoldsTemporary(s.publishers[k]))
                  && !(HasPublished(s.publishers[i]) && HasPublished(s.publishers[k])))
  {
    ScheduleInv(Start(d, runners, payloads), schedule);
  }

  /** Whoever published, the final directory holds exactly what it wrote, and the result its whole payload. */
  lemma PublishedIsComplete(d: Disk, runners: nat, payloads: seq<string>, schedule: seq<Action>)
    ensures var s := After(Start(d, runners, payloads), schedule);
            && (forall i :: 0 <= i < |s.runners| && s.runners[i].phase.Published? ==>
                              s.disk.final == Some(Dir(i, s.runners[i].written)))
            && (forall j :: 0 <= j < |s.publishers| && HasPublished(s.publishers[j]) ==>
                              j < |payloads| && s.disk.result == Some(Result(j, payloads[j])))
  {
    ScheduleInv(Start(d, runners, payloads), schedule);
    var s := After(Start(d, runners, payloads), schedule);
    forall j | 0 <= j < |s.publishers| ensures s.publishers[j].payload == payloads[j] {
      PayloadKept(Start(d, runners, payloads), schedule, j);
    }
    forall j | 0 <= j < |s.publishers| && HasPublished(s.publishers[j])
      ensures s.disk.result == Some(Result(j, payloads[j]))
    {
      assert PublisherOk(s.disk, s.publishers[j], j);
    }
  }

  lemma {:induction false} PayloadKept(s: System, schedule: seq<Action>, j: nat)
    requires j < |s.publishers|
    ensures |After(s, schedule).publishers| == |s.publishers|
    ensures After(s, schedule).publishers[j].payload == s.publishers[j].payload
  {
    if schedule != [] {
      PayloadKept(s, schedule[..|schedule| - 1], j);
    }
  }

  /** Once there, a directory or failure result stays as it is, whatever follows: published, or found at the start. */
  lemma {:induction false} PublishedStays(d: Disk, runners: nat, payloads: seq<string>, schedule: seq<Action>, n: nat)
    requires n <= |schedule|
    ensures var s := Start(d, runners, payloads);
            Keeps(After(s, schedule[..n]).disk, After(s, schedule).disk)
  {
    var s := Start(d, runners, payloads);
    if n < |schedule| {
      var init := schedule[..|schedule| - 1];
      PublishedStays(d, runners, payloads, init, n);
      assert init[..n] == schedule[..n];
      ScheduleInv(s, init);
      StepOk(After(s, init), schedule[|schedule| - 1]);
    } else {
      assert schedule[..n] == schedule;
    }
  }

  /** What stands at the final path and at the result stood there before, or was published by its maker. */
  ghost predicate PublishedByMaker(d: Disk, s: System) {
    && (s.disk.final.Some? && s.disk.final != d.final ==>
          var i := s.disk.final.value.maker; i < |s.runners| && s.runners[i].phase.Published?)
    && (s.disk.result.Some? && s.disk.result != d.result ==>
          var j := s.disk.result.value.maker; j < |s.publishers| && HasPublished(s.publishers[j]))
  }

  lemma StepPublishes(d: Disk, s: System, a: Action)
    requires Inv(s) && PublishedByMaker(d, s)
    ensures PublishedByMaker(d, Apply(s, a))
  {
    StepOk(s, a);
    if a.RunnerActs? && a.i < |s.runners| {
      assert RunnerOk(s.disk, s.runners[a.i], a.i);
    } else if a.PublisherActs? && a.j < |s.publishers| {
      assert PublisherOk(s.disk, s.publishers[a.j], a.j);
    }
    hide Inv, Keeps, TouchesOwnOnly;
  }

  /** Nothing is published except by an actor that reached the end of its protocol. */
  lemma {:induction false} NothingElsePublishes(d: Disk, runners: nat, payloads: seq<string>, schedule: seq<Action>)
    ensures PublishedByMaker(d, After(Start(d, runners, payloads), schedule))
  {
    if schedule != [] {
      var init := schedule[..|schedule| - 1];
      NothingElsePublishes(d, runners, payloads, init);
      ScheduleInv(Start(d, runners, payloads), init);
      StepPublishes(d, After(Start(d, runners, payloads), init), schedule[|schedule| - 1]);
    }
  }

  /** Whoever a name on the disk `d` shuts out has neither taken it nor published. */
  ghost predicate ShutOut(d: Disk, s: System) {
    && (d.final.Some? ==> NonePublished(s))
    && (d.partial.Some? ==> s.disk.partial == d.partial && NonePublished(s) && NoneOwns(s))
    && (d.result.Some? ==> NoResult(s))
    && (d.temporary.Some? ==> s.disk.temporary == d.temporary && NoResult(s) && NoneHolds(s))
  }

  ghost predicate NonePublished(s: System) {
    forall r :: r in s.runners ==> !r.phase.Published?
  }

  ghost predicate NoneOwns(s: System) {
    forall r :: r in s.runners ==> !Owns(r)
  }

  ghost predicate NoResult(s: System) {
    forall p :: p in s.publishers ==> !HasPublished(p)
  }

  ghost predicate NoneHolds(s: System) {
    forall p :: p in s.publishers ==> !HoldsTemporary(p)
  }

  lemma StepShutsOut(d: Disk, s: System, a: Action)
    requires Inv(s) && ShutOut(d, s) && Keeps(d, s.disk)
    ensures ShutOut(d, Apply(s, a)) && Keeps(d, Apply(s, a).disk)
  {
    StepOk(s, a);
    if a.RunnerActs? && a.i < |s.runners| {
      assert RunnerOk(s.disk, s.runners[a.i], a.i) && s.runners[a.i] in s.runners;
    } else if a.PublisherActs? && a.j < |s.publishers| {
      assert PublisherOk(s.disk, s.publishers[a.j], a.j) && s.publishers[a.j] in s.publishers;
    }
    hide Inv, TouchesOwnOnly;
  }

  /** A name found on the disk is never taken over: a stale partial directory stays, and blocks every publication. */
  lemma {:induction false} StaleNamesBlock(d: Disk, runners: nat, payloads: seq<string>, schedule: seq<Action>)
    ensures var s := After(Start(d, runners, payloads), schedule); ShutOut(d, s) && Keeps(d, s.disk)
  {
    if schedule != [] {
      var init := schedule[..|schedule| - 1];
      StaleNamesBlock(d, runners, payloads, init);
      ScheduleInv(Start(d, runners, payloads), init);
      StepShutsOut(d, After(Start(d, runners, payloads), init), schedule[|schedule| - 1]);
    }
  }

  // ----- the code of one actor, as a run of its steps without interference

  function RunnerSteps(d: Disk, r: Runner, i: nat, actions: seq<RunnerAction>): (Disk, Runner)
    decreases |actions|
  {
    if actions == [] then (d, r)
    else
      var (d', r') := RunnerStep(d, r, i, actions[0]);
      RunnerSteps(d', r', i, actions[1..])
  }

  function Acts(i: nat, actions: seq<RunnerAction>): (r: seq<Action>)
    ensures |r| == |actions|
  {
    seq(|actions|, k requires 0 <= k < |actions| => RunnerActs(i, actions[k]))
  }

  lemma {:induction false} AfterConcat(s: System, a: seq<Action>, b: seq<Action>)
    ensures After(s, a + b) == After(After(s, a), b)
  {
    if b == [] {
      assert a + b == a;
    } else {
      assert (a + b)[..|a + b| - 1] == a + b[..|b| - 1];
      AfterConcat(s, a, b[..|b| - 1]);
    }
  }

  lemma {:induction false} ActsAre(s: System, i: nat, actions: seq<RunnerAction>)
    requires i < |s.runners|
    ensures var (d, r) := RunnerSteps(s.disk, s.runners[i], i, actions);
            After(s, Acts(i, actions)) == s.(disk := d, runners := s.runners[i := r])
    decreases |actions|
  {
    hide RunnerStep;
    if actions != [] {
      var first := Apply(s, RunnerActs(i, actions[0]));
      assert Acts(i, actions) == [RunnerActs(i, actions[0])] + Acts(i, actions[1..]);
      AfterConcat(s, [RunnerActs(i, actions[0])], Acts(i, actions[1..]));
      assert [RunnerActs(i, actions[0])][..0] == [];
      ActsAre(first, i, actions[1..]);
    }
  }

  lemma {:induction false} StepsConcat(d: Disk, r: Runner, i: nat, a: seq<RunnerAction>, b: seq<RunnerAction>)
    ensures RunnerSteps(d, r, i, a + b) == (var (d', r') := RunnerSteps(d, r, i, a); RunnerSteps(d', r', i, b))
    decreases |a|
  {
    hide RunnerStep;
    if a == [] {
      assert a + b == b;
    } else {
      assert (a + b)[0] == a[0] && (a + b)[1..] == a[1..] + b;
      var (d', r') := RunnerStep(d, r, i, a[0]);
      StepsConcat(d', r', i, a[1..], b);
    }
  }

  function Writes(names: seq<string>): (r: seq<RunnerAction>)
    ensures |r| == |names|
  {
    seq(|names|, k requires 0 <= k < |names| => WriteFile(names[k]))
  }

  lemma {:induction false} WritesAre(d: Disk, written: seq<string>, i: nat, names: seq<string>)
    requires d.partial == Some(Dir(i, written))
    ensures RunnerSteps(d, Runner(Owning, written), i, Writes(names))
         == (d.(partial := Some(Dir(i, written + names))), Runner(Owning, written + names))
    decreases |names|
  {
    if names == [] {
      assert written + names == written;
    } else {
      assert Writes(names)[1..] == Writes(names[1..]);
      assert written + names == written + [names[0]] + names[1..];
      WritesAre(d.(partial := Some(Dir(i, written + [names[0]]))), written + [names[0]], i, names[1..]);
    }
  }

  const CONSTRUCTOR := [CheckFinal, CheckPartial, CreatePartial]
  const DESTRUCTOR := [EmptyPartial, RemovePartial]
  const PUBLISH := [CheckBeforePublish, Rename]

  lemma Constructs(d: Disk, i: nat)
    requires d.final.None? && d.partial.None?
    ensures RunnerSteps(d, Runner(Begun, []), i, CONSTRUCTOR) == (d.(partial := Some(Dir(i, []))), Runner(Owning, []))
  {
    assert CONSTRUCTOR[1..] == [CheckPartial, CreatePartial] && [CheckPartial, CreatePartial][1..] == [CreatePartial];
    assert [CreatePartial][1..] == [];
  }

  lemma Destructs(d: Disk, r: Runner, i: nat)
    requires r.phase.Owning?
    ensures RunnerSteps(d, r, i, DESTRUCTOR) == (d.(partial := None), r.(phase := Finished))
  {
    assert DESTRUCTOR[1..] == [RemovePartial] && [RemovePartial][1..] == [];
  }

  lemma Publishes(d: Disk, i: nat, written: seq<string>)
    requires d.final.None? && d.partial == Some(Dir(i, written))
    ensures RunnerSteps(d, Runner(Owning, written), i, PUBLISH)
         == (d.(final := d.partial, partial := None), Runner(Published, written))
  {
    assert PUBLISH[1..] == [Rename] && [Rename][1..] == [];
  }

  /** A failed runner's cleanup, then another runner's whole protocol. */
  function Recovery(i: nat, k: nat, names: seq<string>): seq<Action> {
    Acts(i, DESTRUCTOR) + Acts(k, CONSTRUCTOR + Writes(names) + PUBLISH)
  }

  lemma WholeProtocol(d: Disk, k: nat, names: seq<string>)
    requires d.final.None? && d.partial.None?
    ensures RunnerSteps(d, Runner(Begun, []), k, CONSTRUCTOR + Writes(names) + PUBLISH)
         == (d.(final := Some(Dir(k, names))), Runner(Published, names))
  {
    hide RunnerSteps;
    StepsConcat(d, Runner(Begun, []), k, CONSTRUCTOR + Writes(names), PUBLISH);
    StepsConcat(d, Runner(Begun, []), k, CONSTRUCTOR, Writes(names));
    Constructs(d, k);
    var owned := d.(partial := Some(Dir(k, [])));
    WritesAre(owned, [], k, names);
    assert [] + names == names;
    Publishes(owned.(partial := Some(Dir(k, names))), k, names);
  }

  /**
   * No failure blocks the path: from any reachable state, once an owner cleans up, a runner that has not begun
   * acquires the free path, writes what it likes and publishes exactly that.
   */
  lemma NextRunnerPublishes(s: System, i: nat, k: nat, names: seq<string>)
    requires Inv(s) && s.disk.final.None? && i < |s.runners| && k < |s.runners|
    requires s.runners[i].phase.Owning? && s.runners[k].phase.Begun?
    ensures var s' := After(s, Recovery(i, k, names));
            && s'.disk == s.disk.(final := Some(Dir(k, names)), partial := None)
            && s'.runners == s.runners[i := s.runners[i].(phase := Finished)][k := Runner(Published, names)]
            && s'.publishers == s.publishers
  {
    assert RunnerOk(s.disk, s.runners[k], k);
    hide RunnerSteps, After, Inv;
    AfterConcat(s, Acts(i, DESTRUCTOR), Acts(k, CONSTRUCTOR + Writes(names) + PUBLISH));
    ActsAre(s, i, DESTRUCTOR);
    Destructs(s.disk, s.runners[i], i);
    ActsAre(After(s, Acts(i, DESTRUCTOR)), k, CONSTRUCTOR + Writes(names) + PUBLISH);
    WholeProtocol(s.disk.(partial := None), k, names);
  }

  class FileSystem {
    var final: Option<Dir>
    var partial: Option<Dir>
    var result: Option<Result>
    var temporary: Option<Temporary>

    ghost function Value(): Disk
      reads this
    {
      Disk(final, partial, result, temporary)
    }

    /** What other actors leave while this one does nothing. */
    method Become(d: Disk)
      modifies this
      ensures Value() == d
    {
      final, partial, result, temporary := d.final, d.partial, d.result, d.temporary;
    }

    /** Creates the directory where nothing stands; false when something does. */
    method CreatePartial(maker: nat) returns (created: bool)
      modifies `partial
      ensures created == old(partial).None?
      ensures partial == if created then Some(Dir(maker, [])) else old(partial)
    {
      created := partial.None?;
      if created {
        partial := Some(Dir(maker, []));
      }
    }

    /** Hard-links the result where nothing stands; false when something does. */
    method LinkResult(file: Result) returns (linked: bool)
      modifies `result
      ensures linked == old(result).None?
      ensures result == if linked then Some(file) else old(result)
    {
      linked := result.None?;
      if linked {
        result := Some(file);
      }
    }
  }

  class AtomicQualificationDirectory {
    const id: nat
    var ownsWorkingDirectory: bool
    var published: bool

    constructor (id: nat)
      ensures this.id == id && !ownsWorkingDirectory && !published
    {
      this.id, ownsWorkingDirectory, published := id, false, false;
    }

    /** The runner phase these two flags stand for between calls. */
    ghost function Phase(): RunnerPhase
      reads this
    {
      if published then Published else if ownsWorkingDirectory then Owning else Begun
    }

    /**
     * The checks and the creation of the constructor; false stands for its exceptions. Other actors may act
     * before the second check and before the creation: `first` and `second` are what they leave.
     */
    method Acquire(fs: FileSystem, first: Disk, second: Disk) returns (ok: bool)
      requires !ownsWorkingDirectory && !published
      modifies this`ownsWorkingDirectory, fs
      ensures var (_, r1) := RunnerStep(old(fs.Value()), Runner(Begun, []), id, CheckFinal);
              var (_, r2) := RunnerStep(first, r1, id, CheckPartial);
              var (d, r3) := RunnerStep(second, r2, id, CreatePartial);
              && ok == r3.phase.Owning? && ownsWorkingDirectory == ok
              && (ok ==> fs.Value() == d)
              && (!ok ==> fs.Value() == if r1.phase.Finished? then old(fs.Value()) else if r2.phase.Finished? then first else second)
      ensures ok <==> old(fs.final).None? && first.partial.None? && second.partial.None?
    {
      if fs.final.Some? {
        return false;
      }
      fs.Become(first);
      if fs.partial.Some? {
        return false;
      }
      fs.Become(second);
      var created := fs.CreatePartial(id);
      if !created {
        return false;
      }
      ownsWorkingDirectory := true;
      ok := true;
    }

    /** Publishes by one rename, refusing a final path that has appeared; false stands for its exceptions. */
    method Publish(fs: FileSystem, ghost written: seq<string>) returns (ok: bool)
      requires ownsWorkingDirectory ==> fs.partial.Some?
      modifies this, fs`final, fs`partial
      ensures ok == (old(ownsWorkingDirectory) && !old(published) && old(fs.final).None?)
      ensures ok ==> var (d, r) := RunnerSteps(old(fs.Value()), Runner(Owning, written), id, PUBLISH);
                     fs.Value() == d && r == Runner(Published, written) && Phase() == Published
      ensures ok ==> fs.final == old(fs.partial) && fs.partial.None?
      ensures !ok ==> unchanged(this) && unchanged(fs)
    {
      if published || !ownsWorkingDirectory {
        return false;
      }
      if fs.final.Some? {
        return false;
      }
      UnfoldPublish(fs.Value(), Runner(Owning, written), id);
      fs.final, fs.partial := fs.partial, None;
      published := true;
      ownsWorkingDirectory := false;
      ok := true;
    }

    /** The destructor: removes the partial directory only when this object owns it unpublished. */
    method Destroy(fs: FileSystem, ghost written: seq<string>)
      modifies fs`partial
      ensures fs.Value() == if ownsWorkingDirectory && !published then old(fs.Value()).(partial := None) else old(fs.Value())
      ensures ownsWorkingDirectory && !published ==>
                fs.Value() == RunnerSteps(old(fs.Value()), Runner(Owning, written), id, DESTRUCTOR).0
    {
      if ownsWorkingDirectory && !published {
        Destructs(fs.Value(), Runner(Owning, written), id);
        fs.partial := None;
      }
    }
  }

  // ----- the failure publisher's code, uninterrupted

  function PublisherSteps(d: Disk, p: Publisher, j: nat, actions: seq<PublisherAction>): (Disk, Publisher)
    decreases |actions|
  {
    if actions == [] then (d, p)
    else
      var (d', p') := PublisherStep(d, p, j, actions[0]);
      PublisherSteps(d', p', j, actions[1..])
  }

  const PREFLIGHT := [CheckOutput, CheckResult, CheckTemporary]
  const DELIVERY := [CreateTemporary, OpenDraft, WriteDraft, Link, RemoveTemporary]

  /** Publishes a failure result through an owned temporary directory; false stands for its exceptions. */
  method PublishFailureResult(fs: FileSystem, j: nat, payload: string) returns (ok: bool)
    modifies fs`temporary, fs`result
    ensures var (d, p) := PublisherSteps(old(fs.Value()), Publisher(Ready, payload), j, PREFLIGHT + DELIVERY);
            fs.Value() == d && p.phase == Over(ok)
    ensures ok == old(fs.final.None? && fs.result.None? && fs.temporary.None?)
    ensures ok ==> fs.result == Some(Result(j, payload)) && fs.temporary.None?
    ensures !ok ==> unchanged(fs)
  {
    PublisherAlone(fs.Value(), payload, j);
    if fs.final.Some? || fs.result.Some? || fs.temporary.Some? {
      return false;
    }
    fs.temporary := Some(Temporary(j, None));
    fs.temporary := Some(Temporary(j, Some("")));
    fs.temporary := Some(Temporary(j, Some(payload)));
    ok := fs.LinkResult(Result(j, fs.temporary.value.draft.value));
    fs.temporary := None;
  }

  lemma UnfoldPublisher(d: Disk, p: Publisher, j: nat, a: PublisherAction, rest: seq<PublisherAction>)
    ensures PublisherSteps(d, p, j, [a] + rest) ==
            PublisherSteps(PublisherStep(d, p, j, a).0, PublisherStep(d, p, j, a).1, j, rest)
  {
    assert ([a] + rest)[1..] == rest;
  }

  /** A publisher that has given up or finished stays so. */
  lemma {:induction false} OverStays(d: Disk, p: Publisher, j: nat, actions: seq<PublisherAction>)
    requires p.phase == Over(false) && forall a :: a in actions ==> !a.CrashPublisher?
    ensures PublisherSteps(d, p, j, actions) == (d, p)
  {
    if actions != [] {
      OverStays(d, p, j, actions[1..]);
    }
  }

  lemma PublisherAlone(d: Disk, payload: string, j: nat)
    ensures PublisherSteps(d, Publisher(Ready, payload), j, PREFLIGHT + DELIVERY) ==
            if d.final.None? && d.result.None? && d.temporary.None? then
              (d.(result := Some(Result(j, payload))), Publisher(Over(true), payload))
            else (d, Publisher(Over(false), payload))
  {
    var start := Publisher(Ready, payload);
    assert PREFLIGHT + DELIVERY == [CheckOutput] + ([CheckResult] + ([CheckTemporary] + DELIVERY));
    UnfoldPublisher(d, start, j, CheckOutput, [CheckResult] + ([CheckTemporary] + DELIVERY));
    if d.final.Some? {
      OverStays(d, Publisher(Over(false), payload), j, [CheckResult] + ([CheckTemporary] + DELIVERY));
    } else {
      UnfoldPublisher(d, Publisher(OutputClear, payload), j, CheckResult, [CheckTemporary] + DELIVERY);
      if d.result.Some? {
        OverStays(d, Publisher(Over(false), payload), j, [CheckTemporary] + DELIVERY);
      } else {
        UnfoldPublisher(d, Publisher(ResultClear, payload), j, CheckTemporary, DELIVERY);
        if d.temporary.Some? {
          OverStays(d, Publisher(Over(false), payload), j, DELIVERY);
        } else {
          DeliveryAlone(d, payload, j);
        }
      }
    }
  }

  lemma DeliveryAlone(d: Disk, payload: string, j: nat)
    requires d.result.None? && d.temporary.None?
    ensures PublisherSteps(d, Publisher(TemporaryClear, payload), j, DELIVERY) ==
            (d.(result := Some(Result(j, payload))), Publisher(Over(true), payload))
  {
    hide PublisherSteps;
    var made := (draft: Option<string>) => d.(temporary := Some(Temporary(j, draft)));
    assert DELIVERY == [CreateTemporary] + ([OpenDraft] + ([WriteDraft] + ([Link] + ([RemoveTemporary] + []))));
    UnfoldPublisher(d, Publisher(TemporaryClear, payload), j, CreateTemporary,
                    [OpenDraft] + ([WriteDraft] + ([Link] + ([RemoveTemporary] + []))));
    UnfoldPublisher(made(None), Publisher(Holding, payload), j, OpenDraft,
                    [WriteDraft] + ([Link] + ([RemoveTemporary] + [])));
    UnfoldPublisher(made(Some("")), Publisher(Opened, payload), j, WriteDraft, [Link] + ([RemoveTemporary] + []));
    UnfoldPublisher(made(Some(payload)), Publisher(Written, payload), j, Link, [RemoveTemporary] + []);
    UnfoldPublisher(made(Some(payload)).(result := Some(Result(j, payload))), Publisher(Linked(true), payload), j,
                    RemoveTemporary, []);
    NoMoreSteps(d.(result := Some(Result(j, payload))), Publisher(Over(true), payload), j);
  }

  lemma NoMoreSteps(d: Disk, p: Publisher, j: nat)
    ensures PublisherSteps(d, p, j, []) == (d, p)
  {
  }

  lemma UnfoldPublish(d: Disk, r: Runner, i: nat)
    ensures RunnerSteps(d, r, i, [CheckBeforePublish, Rename]) ==
            var (d1, r1) := RunnerStep(d, r, i, CheckBeforePublish);
            RunnerStep(d1, r1, i, Rename)
  {
    hide RunnerStep;
    assert [CheckBeforePublish, Rename][1..] == [Rename] && [Rename][1..] == [];
  }

  function Delivers(j: nat, actions: seq<PublisherAction>): (r: seq<Action>)
    ensures |r| == |actions|
  {
    seq(|actions|, k requires 0 <= k < |actions| => PublisherActs(j, actions[k]))
  }

  lemma {:induction false} DeliversAre(s: System, j: nat, actions: seq<PublisherAction>)
    requires j < |s.publishers|
    ensures var (d, p) := PublisherSteps(s.disk, s.publishers[j], j, actions);
            After(s, Delivers(j, actions)) == s.(disk := d, publishers := s.publishers[j := p])
    decreases |actions|
  {
    hide PublisherStep;
    if actions != [] {
      var first := Apply(s, PublisherActs(j, actions[0]));
      assert Delivers(j, actions) == [PublisherActs(j, actions[0])] + Delivers(j, actions[1..]);
      AfterConcat(s, [PublisherActs(j, actions[0])], Delivers(j, actions[1..]));
      assert [PublisherActs(j, actions[0])][..0] == [];
      DeliversAre(first, j, actions[1..]);
    }
  }

  const GIVE_UP := [FailWriting, RemoveTemporary]

  lemma GivesUp(d: Disk, p: Publisher, j: nat)
    requires p.phase.Holding? || p.phase.Opened? || p.phase.Written?
    ensures PublisherSteps(d, p, j, GIVE_UP) == (d.(temporary := None), p.(phase := Over(false)))
  {
    assert GIVE_UP[1..] == [RemoveTemporary] && [RemoveTemporary][1..] == [];
  }

  /** Nor does a failed publisher: once it cleans up, one that has not begun publishes its whole payload. */
  lemma NextPublisherDelivers(s: System, j: nat, m: nat)
    requires s.disk.final.None? && s.disk.result.None? && j < |s.publishers| && m < |s.publishers|
    requires var p := s.publishers[j].phase; p.Holding? || p.Opened? || p.Written?
    requires s.publishers[m].phase.Ready?
    ensures var s' := After(s, Delivers(j, GIVE_UP) + Delivers(m, PREFLIGHT + DELIVERY));
            && s'.disk == s.disk.(result := Some(Result(m, s.publishers[m].payload)), temporary := None)
            && s'.publishers == s.publishers[j := s.publishers[j].(phase := Over(false))]
                                            [m := s.publishers[m].(phase := Over(true))]
            && s'.runners == s.runners
  {
    hide PublisherSteps, After;
    AfterConcat(s, Delivers(j, GIVE_UP), Delivers(m, PREFLIGHT + DELIVERY));
    DeliversAre(s, j, GIVE_UP);
    GivesUp(s.disk, s.publishers[j], j);
    DeliversAre(After(s, Delivers(j, GIVE_UP)), m, PREFLIGHT + DELIVERY);
    PublisherAlone(s.disk.(temporary := None), s.publishers[m].payload, m);
  }
}

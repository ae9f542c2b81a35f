/** The backend, the run that owns it and its ledger, and the plain accumulator, as objects. */
module IntegrationRunObjects {
  import opened Wrappers
  import opened WorkLedger
  import R = IntegrationRun
  import P = Publication

  /** The integration backend as far as its work counters go. */
  class Advancer {
    const workers: int
    var epoch: Counters
    ghost var lifetime: R.Work

    ghost function Value(): R.Backend
      reads this
    {
      R.Backend(epoch, lifetime, workers)
    }

    constructor (initial: Counters, workers: int)
      ensures Value() == R.Backend(initial, R.Plus(ZERO, initial), workers)
    {
      this.workers, epoch, lifetime := workers, initial, R.Plus(ZERO, initial);
    }

    /** Does some work towards a stop, which it may fail to reach. */
    method AdvanceTo(work: Counters, succeeds: bool) returns (ok: bool)
      requires R.Fits(epoch, work)
      modifies this
      ensures ok == succeeds && Value() == R.Worked(old(Value()), work)
    {
      ok := succeeds;
      lifetime := R.Plus(lifetime, work);
      epoch := R.Within(epoch, work);
    }

    /** Reinitializes, restarting the counters; or fails after some work, restarting nothing. */
    method SynchronizeAfterAcceptedContextChange(work: Counters, initial: Counters, succeeds: bool) returns (ok: bool)
      requires R.Fits(epoch, work)
      modifies this
      ensures ok == succeeds
      ensures Value() == if ok then R.Reinitialized(old(Value()), initial) else R.Worked(old(Value()), work)
    {
      ok := succeeds;
      if ok {
        lifetime := R.Plus(lifetime, initial);
        epoch := initial;
      } else {
        lifetime := R.Plus(lifetime, work);
        epoch := R.Within(epoch, work);
      }
    }

    method IntegrationStatistics() returns (s: Statistics)
      ensures s == R.Snapshot(Value())
    {
      s := Statistics(epoch, workers);
    }
  }

  // ----- the failure record

  datatype Stage = Construction | Advancing | Synchronization

  datatype Availability = Unavailable | Partial | Complete

  /** What a failure record says of the work, after the stage that failed. */
  datatype FailureRecord = FailureRecord(
    stage: Stage, availability: Availability, epochs: nat, total: Option<Counters>, errors: nat)

  function RecordOf(stage: Stage, l: Ledger): FailureRecord {
    FailureRecord(stage, if !l.available then Unavailable else if l.complete then Complete else Partial,
                  l.epochs, if l.available then Some(l.total) else None, l.errors)
  }

  /** On an exact account a record that calls itself complete holds the whole lifetime work, and it is one when that fits. */
  lemma RecordsTellTheTruth(r: R.Run, stage: Stage)
    requires R.Exact(r) && R.SameWorkers(r)
    ensures var record := RecordOf(stage, R.RecordFailure(r).ledger);
            && (record.availability.Complete? <==> r.ledger.complete && R.Representable(r.backend.lifetime))
            && (record.availability.Complete? ==>
                  record.total.Some? && forall i :: 0 <= i < COUNTERS ==> record.total.value[i] == r.backend.lifetime[i])
  {
    R.CaptureSettles(r);
    CaptureFrames(r);
    hide Refusal, Updated;
  }

  /** Where a record goes: published when success, result and temporary path are free, else nowhere. */
  function Recorded(d: P.Disk, id: nat, text: string): P.Disk {
    if d.final.None? && d.result.None? && d.temporary.None? then d.(result := Some(P.Result(id, text))) else d
  }

  class QualificationIntegrationRun {
    const advancer: Advancer
    const ledger: QualificationIntegrationWorkLedger
    const fs: P.FileSystem
    const id: nat
    const encode: FailureRecord -> string

    ghost function Value(): R.Run
      reads advancer, ledger
    {
      R.Run(advancer.Value(), ledger.Value())
    }

    constructor (advancer: Advancer, ledger: QualificationIntegrationWorkLedger, fs: P.FileSystem, id: nat,
                 encode: FailureRecord -> string)
      ensures this.advancer == advancer && this.ledger == ledger && this.fs == fs && this.id == id && this.encode == encode
    {
      this.advancer, this.ledger, this.fs, this.id, this.encode := advancer, ledger, fs, id, encode;
    }

    /**
     * Construction; null stands for its exceptions. `advancer` is null where the backend's own construction throws,
     * and the configuration may name another method than the backend's.
     */
    static method Construct(advancer: Advancer?, sameMethod: bool, fs: P.FileSystem, id: nat,
                            encode: FailureRecord -> string)
      returns (run: QualificationIntegrationRun?, ghost recorded: Ledger)
      requires advancer != null ==> advancer.Value() == R.Backend(advancer.epoch, R.Plus(ZERO, advancer.epoch), advancer.workers)
      modifies fs`temporary, fs`result
      ensures run != null <==> advancer != null && sameMethod && R.Construct(advancer.epoch, advancer.workers).1
      ensures run != null ==>
                run.advancer == advancer && fresh(run.ledger) && run.Value() == R.Construct(advancer.epoch, advancer.workers).0
                && unchanged(fs)
      ensures run == null ==>
                && fs.Value() == Recorded(old(fs.Value()), id, encode(RecordOf(Construction, recorded)))
                && recorded == if advancer == null then MarkUnavailable(EMPTY_LEDGER)
                               else var (r, ok) := R.Construct(advancer.epoch, advancer.workers);
                                    if ok then R.RecordFailure(r).ledger else r.ledger
    {
      hide R.RecordFailure, Refusal, Updated;
      var ledger := new QualificationIntegrationWorkLedger();
      if advancer == null {
        ledger.MarkStatisticsUnavailable("backend construction did not return an object");
        recorded := ledger.Value();
        PublishRecord(Construction, ledger, fs, id, encode);
        return null, recorded;
      }
      run := new QualificationIntegrationRun(advancer, ledger, fs, id, encode);
      var current := advancer.IntegrationStatistics();
      var error := ledger.BeginEpoch(current);
      RefusedEpoch(advancer.Value());
      if error.Some? || !sameMethod {
        run.RecordFailure(Construction);
        recorded := ledger.Value();
        return null, recorded;
      }
      recorded := ledger.Value();
    }

    /** Publishes what the ledger says; a destination that is taken stays as it is. */
    static method PublishRecord(stage: Stage, ledger: QualificationIntegrationWorkLedger, fs: P.FileSystem, id: nat,
                                encode: FailureRecord -> string)
      modifies fs`temporary, fs`result
      ensures fs.Value() == Recorded(old(fs.Value()), id, encode(RecordOf(stage, ledger.Value())))
    {
      var availability := if !ledger.available then Unavailable else if ledger.complete then Complete else Partial;
      var record := FailureRecord(stage, availability, ledger.epochCount,
                                  if ledger.available then Some(ledger.total) else None, |ledger.errors|);
      var published := P.PublishFailureResult(fs, id, encode(record));
    }

    method Capture() returns (error: Option<Error>)
      modifies ledger
      ensures error.None? == R.Captures(old(Value())) && Value() == R.Capture(old(Value()))
    {
      var current := advancer.IntegrationStatistics();
      error := ledger.Capture(current);
    }

    /** One more capture, or a note that there is none; then the record is published where it can be. */
    method RecordFailure(stage: Stage)
      modifies ledger, fs`temporary, fs`result
      ensures Value() == R.RecordFailure(old(Value()))
      ensures fs.Value() == Recorded(old(fs.Value()), id, encode(RecordOf(stage, Value().ledger)))
    {
      hide Refusal, Updated;
      var error := Capture();
      if error.Some? {
        RefusedChangesNothing(old(Value()));
        ledger.MarkStatisticsUnavailable("statistics retrieval failed");
      }
      PublishRecord(stage, ledger, fs, id, encode);
    }

    /** Advances and captures; false where the code throws. */
    method Advance(work: Counters, succeeds: bool) returns (ok: bool)
      requires R.Fits(advancer.epoch, work)
      modifies advancer, ledger, fs`temporary, fs`result
      ensures (Value(), ok) == R.Step(old(Value()), R.Advance(work, succeeds))
      ensures fs.Value() == if ok then old(fs.Value())
                            else Recorded(old(fs.Value()), id, encode(RecordOf(Advancing, Value().ledger)))
    {
      hide R.RecordFailure, R.Capture, R.Captures;
      ok := advancer.AdvanceTo(work, succeeds);
      ghost var worked := Value();
      if ok {
        var error := Capture();
        ok := error.None?;
        RefusedChangesNothing(worked);
      }
      if !ok {
        RecordFailure(Advancing);
      }
    }

    /** Captures, reinitializes and begins an epoch; false where the code throws. */
    method Synchronize(work: Counters, initial: Counters, succeeds: bool) returns (ok: bool)
      requires R.Fits(advancer.epoch, work)
      modifies advancer, ledger, fs`temporary, fs`result
      ensures (Value(), ok) == R.Step(old(Value()), R.Synchronize(work, initial, succeeds))
      ensures fs.Value() == if ok then old(fs.Value())
                            else Recorded(old(fs.Value()), id, encode(RecordOf(Synchronization, Value().ledger)))
    {
      hide R.RecordFailure, R.Capture, R.Captures, Refusal, Updated;
      var error := Capture();
      if error.Some? {
        RefusedChangesNothing(old(Value()));
        RecordFailure(Synchronization);
        return false;
      }
      CaptureFrames(old(Value()));
      ok := advancer.SynchronizeAfterAcceptedContextChange(work, initial, succeeds);
      if ok {
        var current := advancer.IntegrationStatistics();
        ghost var restarted := Value();
        var refused := ledger.BeginEpoch(current);
        ok := refused.None?;
        EpochRefusalChangesNothing(restarted);
      }
      if !ok {
        RecordFailure(Synchronization);
      }
    }
  }

  /** How construction begins its first epoch. */
  lemma RefusedEpoch(b: R.Backend)
    requires b.lifetime == R.Plus(ZERO, b.epoch)
    ensures R.Construct(b.epoch, b.workers)
         == if Refusal(EMPTY_LEDGER, R.Snapshot(b), true).Some? then (R.RecordFailure(R.Run(b, EMPTY_LEDGER)), false)
            else (R.Run(b, Updated(EMPTY_LEDGER, R.Snapshot(b), true)), true)
    ensures Refusal(EMPTY_LEDGER, R.Snapshot(b), true).Some? ==> Updated(EMPTY_LEDGER, R.Snapshot(b), true) == EMPTY_LEDGER
  {
    hide R.RecordFailure;
  }

  lemma CaptureFrames(r: R.Run)
    ensures R.Capture(r).backend == r.backend
  {
  }

  lemma RefusedChangesNothing(r: R.Run)
    ensures !R.Captures(r) ==> R.Capture(r) == r
    ensures R.Captures(r) <==> Refusal(r.ledger, R.Snapshot(r.backend), false).None?
  {
  }

  lemma EpochRefusalChangesNothing(r: R.Run)
    ensures R.EpochRefused(r) ==> Updated(r.ledger, R.Snapshot(r.backend), true) == r.ledger
  {
  }

  /** The running sums of a control loop, added to in place. */
  class RunningStatistics {
    var counters: Counters
    var workers: int

    constructor ()
      ensures counters == ZERO && workers == 0
    {
      counters, workers := ZERO, 0;
    }

    /** Adds with wrap-around, then adopts or checks the worker count; a mismatch leaves the sums added. */
    method AccumulateStatistics(source: Statistics) returns (ok: bool)
      modifies this
      ensures ok == R.Accumulate(source, old(Statistics(counters, workers))).Some?
      ensures ok ==> Some(Statistics(counters, workers)) == R.Accumulate(source, old(Statistics(counters, workers)))
      ensures !ok ==> counters == R.Within(old(counters), source.counters) && workers == old(workers)
    {
      counters := R.Within(counters, source.counters);
      if workers == 0 {
        workers := source.workers;
      } else if workers != source.workers {
        return false;
      }
      ok := true;
    }
  }
}

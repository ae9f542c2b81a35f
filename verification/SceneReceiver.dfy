/** The receiver and its run reports as objects, proved against the state functions. */
module SceneReceiver {
  import opened Wrappers
  import opened OrderedTables
  import opened SceneStream
  import R = RunReports
  import S = Reassembly
  import I = ReassemblyInvariant

  class RunReport {
    var descriptions: nat
    var states: nat
    var unboundStates: nat
    var cadence: Option<R.Cadence>
    var gaps: int
    var sameTime: nat
    var backwards: nat
    var intervalSum: real
    var intervalMax: real
    var statusCounts: seq<R.StatusCounts>

    ghost function Value(): R.Report
      reads this
    {
      R.Report(descriptions, states, unboundStates, cadence, gaps, sameTime, backwards,
               intervalSum, intervalMax, statusCounts)
    }

    constructor ()
      ensures Value() == R.EMPTY_REPORT
    {
      descriptions, states, unboundStates, cadence := 0, 0, 0, None;
      gaps, sameTime, backwards := 0, 0, 0;
      intervalSum, intervalMax, statusCounts := 0.0, 0.0, [];
    }

    method Observe(m: R.Message, descriptor: Option<R.Descriptor>, arrival: real)
      requires R.ZipFits(Value(), m, descriptor)
      modifies this
      ensures Value() == R.Observe(old(Value()), m, descriptor, arrival)
    {
      if m.DescriptionMessage? {
        descriptions := descriptions + 1;
        if statusCounts == [] {
          statusCounts := seq(|descriptor.value.scalarNames|, _ => R.StatusCounts(0, 0, 0));
        }
        return;
      }
      ObserveCadence(m.key.sequence, m.time, arrival);
      states := states + 1;
      if descriptor.None? {
        unboundStates := unboundStates + 1;
      } else {
        CountStatuses(m.frame.scalarStatuses);
      }
    }

    /** The sequence and clock fields, for a state that follows another or is the first. */
    method ObserveCadence(sequence: nat, seconds: real, arrival: real)
      requires 0 < states ==> cadence.Some?
      modifies `cadence, `gaps, `sameTime, `backwards, `intervalSum, `intervalMax
      ensures Value() == if 0 < states then R.Continue(old(Value()), sequence, seconds, arrival)
                         else old(Value()).(cadence := Some(R.Cadence(sequence, sequence, seconds, seconds,
                                                                      seconds, seconds, arrival)))
    {
      if 0 < states {
        var c := cadence.value;
        gaps := gaps + (sequence - c.lastSequence - 1);
        sameTime := sameTime + (if seconds == c.lastTime then 1 else 0);
        backwards := backwards + (if seconds < c.lastTime then 1 else 0);
        var interval := arrival - c.lastArrival;
        intervalSum := intervalSum + interval;
        intervalMax := R.MaxReal(intervalMax, interval);
        cadence := Some(c.(minimumTime := R.MinReal(c.minimumTime, seconds),
                           maximumTime := R.MaxReal(c.maximumTime, seconds)));
      } else {
        cadence := Some(R.Cadence(sequence, sequence, seconds, seconds, seconds, seconds, arrival));
      }
      cadence := Some(cadence.value.(lastSequence := sequence, lastTime := seconds, lastArrival := arrival));
    }

    /** Adds each status to its scalar's counters, in place. */
    method CountStatuses(statuses: seq<nat>)
      requires |statuses| == |statusCounts| && forall i :: 0 <= i < |statuses| ==> statuses[i] <= 2
      modifies `statusCounts
      ensures statusCounts == R.BumpAll(old(statusCounts), statuses)
    {
      var i := 0;
      while i < |statusCounts|
        invariant 0 <= i <= |statusCounts| == |statuses|
        invariant forall j :: 0 <= j < |statuses| ==>
          statusCounts[j] == if j < i then old(statusCounts)[j].Bump(statuses[j]) else old(statusCounts)[j]
      {
        statusCounts := statusCounts[i := statusCounts[i].Bump(statuses[i])];
        i := i + 1;
      }
    }
  }

  ghost function ValuesOf(reports: map<RunId, RunReport>): map<RunId, R.Report>
    reads reports.Values
  {
    map run | run in reports :: reports[run].Value()
  }

  /** No two runs share a report object. */
  ghost predicate Separate(reports: map<RunId, RunReport>) {
    forall a, b :: a in reports && b in reports && a != b ==> reports[a] != reports[b]
  }

  class Receiver {
    const config: S.Config
    const reporting: bool
    var pending: Table<Key, S.Entry>
    var runs: seq<RunId>
    var latest: map<Lane, nat>
    var descriptions: map<RunId, R.Descriptor>
    var reports: map<RunId, RunReport>
    var evictedRuns: nat
    var statistics: S.Statistics

    ghost function Abstract(): S.State
      reads this, reports.Values
    {
      S.State(pending, runs, latest, descriptions, if reporting then Some(ValuesOf(reports)) else None,
              evictedRuns, statistics)
    }

    ghost predicate Valid()
      reads this, reports.Values
    {
      && config.Valid() && I.Inv(config, Abstract())
      && Separate(reports) && (!reporting ==> reports == map[])
    }

    constructor (config: S.Config, reporting: bool)
      requires config.Valid()
      ensures Valid() && Abstract() == I.Start(config, reporting)
      ensures this.config == config && this.reporting == reporting
    {
      this.config, this.reporting := config, reporting;
      pending, runs, latest, descriptions, reports := Table([], map[]), [], map[], map[], map[];
      evictedRuns, statistics := 0, S.Statistics(0, 0, 0, 0, 0, 0);
    }

    /** Deletes the pending keys that fail `keep`, one at a time over a copy of the key list. */
    method DeletePending(keep: Key -> bool) returns (deleted: nat)
      requires pending.Valid()
      modifies `pending
      ensures pending == old(pending).Keep(keep)
      ensures deleted == |old(pending).order| - |pending.order|
    {
      var keys := pending.order;
      ghost var before := pending;
      deleted := 0;
      var i := 0;
      HalfEnds(before, keep);
      while i < |keys|
        invariant 0 <= i <= |keys| && keys == before.order
        invariant pending == HalfKept(before, keep, i)
        invariant deleted == |keys| - |pending.order|
      {
        HalfStep(before, keep, i);
        if !keep(keys[i]) {
          pending := pending.Remove(keys[i]);
          deleted := deleted + 1;
        }
        i := i + 1;
      }
    }

    /** Drops a run from every table, its incomplete messages one by one. */
    method Forget(oldest: RunId)
      requires pending.Valid() && (!reporting ==> reports == map[])
      modifies `evictedRuns, `reports, `descriptions, `latest, `pending, `statistics
      ensures Abstract() == S.Forget(old(Abstract()), oldest)
      ensures reports == old(reports) - {oldest}
    {
      hide Table.Keep, ValuesOf, S.OfOtherRun, Filter, Distinct;
      evictedRuns := evictedRuns + 1;
      reports := reports - {oldest};
      descriptions := descriptions - {oldest};
      latest := latest - (set lane | lane in latest && lane.run == oldest);
      var deleted := DeletePending(S.OfOtherRun(oldest));
      statistics := statistics.(evictedIncomplete := statistics.evictedIncomplete + deleted);
      ValuesWithout(old(reports), oldest);
    }

    /** Moves the run to the recent end; when there are too many, forgets the oldest. */
    method TouchRun(run: RunId)
      requires pending.Valid() && (!reporting ==> reports == map[])
      modifies this
      ensures Abstract() == S.TouchRun(config, old(Abstract()), run)
      ensures forall r :: r in reports ==> r in old(reports) && reports[r] == old(reports)[r]
      ensures pending.Valid() && (!reporting ==> reports == map[])
    {
      hide S.Forget, S.MoveToEnd;
      runs := S.MoveToEnd(runs, run);
      if config.maximumRuns < |runs| {
        var oldest := runs[0];
        runs := runs[1..];
        ghost var before := Abstract();
        Forget(oldest);
        ForgetValid(before, oldest);
      }
    }

    /** Opens an entry for a new key and drops the oldest entry when there are too many. */
    method Open(key: Key, entry: S.Entry)
      requires pending.Valid()
      modifies `pending, `statistics
      ensures Abstract() == S.Open(config, old(Abstract()), key, entry)
    {
      hide Table.Put, Table.PopFirst, ValuesOf;
      if key !in pending.items {
        pending := pending.Put(key, entry);
        if config.maximumPending < |pending.order| {
          pending := pending.PopFirst();
          statistics := statistics.(evictedIncomplete := statistics.evictedIncomplete + 1);
        }
      }
    }

    /** Decodes a complete message, and on success moves its lane on. */
    method Complete(key: Key, time: real, payload: Bytes) returns (outcome: S.Outcome)
      requires pending.Valid()
      modifies `pending, `descriptions, `latest, `statistics
      ensures (Abstract(), outcome) == S.Complete(config, old(Abstract()), key, time, payload)
    {
      hide Table.Keep, Table.Valid, ValuesOf;
      var lane := key.lane;
      var known := if lane.run in descriptions then Some(descriptions[lane.run]) else None;
      if lane.kind == 1 {
        var decoded := config.decodeDescription(payload);
        if decoded.None? {
          return S.Rejected(S.UndecodableDescription);
        }
        if known.Some? && known.value != decoded.value {
          return S.Rejected(S.DescriptionChanged);
        }
        descriptions := descriptions[lane.run := decoded.value];
        outcome := S.Delivered(R.DescriptionMessage(key, time, decoded.value));
      } else {
        var decoded := config.decodeState(payload);
        if decoded.None? {
          return S.Rejected(S.UndecodableState);
        }
        if !S.CountsAgree(known, decoded.value) {
          return S.Rejected(S.DescriptionCount);
        }
        if lane in latest {
          statistics := statistics.(sequenceGaps := statistics.sequenceGaps + (key.sequence - latest[lane] - 1));
        }
        statistics := statistics.(stateFrames := statistics.stateFrames + 1);
        outcome := S.Delivered(R.StateMessage(key, time, decoded.value, known));
      }
      latest := latest[lane := key.sequence];
      var dropped := DeletePending(S.NotSupersededBy(key));
    }

    /** Adds one chunk to an open entry: conflict, repetition, storage or completion. */
    method Absorb(key: Key, h: Header, time: real, payload: Bytes) returns (outcome: S.Outcome)
      requires S.Indexed(Abstract()) && key in pending.items && h.part < h.parts
      modifies `pending, `descriptions, `latest, `statistics
      ensures (Abstract(), outcome) == S.Absorb(config, old(Abstract()), key, h, time, payload)
    {
      hide ValuesOf, Table.Keep, Table.Remove, S.Complete;
      var e := pending.items[key];
      if (time, h.parts, h.total) != (e.time, e.parts, e.total) {
        pending := pending.Remove(key);
        return S.Rejected(S.ConflictingFragments);
      }
      if h.part in e.chunks {
        if e.chunks[h.part] != payload {
          pending := pending.Remove(key);
          return S.Rejected(S.ConflictingDuplicate);
        }
        statistics := statistics.(duplicateOrOld := statistics.duplicateOrOld + 1);
        return S.Repeated;
      }
      var chunks := e.chunks[h.part := payload];
      pending := pending.Put(key, e.(chunks := chunks));
      if |chunks| != h.parts {
        return S.Buffered;
      }
      RemoveAfterPut(old(pending), key, e.(chunks := chunks));
      pending := pending.Remove(key);
      S.FullChunks(chunks, h.parts);
      outcome := Complete(key, time, Join(chunks, h.parts));
    }

    /** The part of `_feed` that follows the touch of the run. */
    method Assemble(h: Header, time: real, payload: Bytes) returns (outcome: S.Outcome)
      requires config.Valid() && S.Indexed(Abstract()) && h.part < h.parts
      modifies `pending, `descriptions, `latest, `statistics
      ensures var s, key, entry := old(Abstract()), KeyOf(h), S.Entry(time, h.parts, h.total, map[]);
              if S.IsOld(s, key) then (Abstract(), outcome) == (S.CountRepeated(s), S.Repeated)
              else
                && S.Indexed(S.Open(config, s, key, entry)) && key in S.Open(config, s, key, entry).pending.items
                && (Abstract(), outcome) == S.Absorb(config, S.Open(config, s, key, entry), key, h, time, payload)
    {
      var key := KeyOf(h);
      if key.lane in latest && key.sequence <= latest[key.lane] {
        statistics := statistics.(duplicateOrOld := statistics.duplicateOrOld + 1);
        return S.Repeated;
      }
      var entry := S.Entry(time, h.parts, h.total, map[]);
      S.OpenHolds(config, Abstract(), key, entry);
      hide S.Open, S.Absorb;
      Open(key, entry);
      outcome := Absorb(key, h, time, payload);
    }

    /** `_feed`: refuse, or touch the run and reassemble. */
    method Reassemble(packet: Packet) returns (outcome: S.Outcome)
      requires config.Valid() && S.Indexed(Abstract()) && (!reporting ==> reports == map[])
      modifies this
      ensures var r := S.Reassemble(config, old(Abstract()), packet);
              Abstract() == r.state && outcome == r.outcome
      ensures forall r :: r in reports ==> r in old(reports) && reports[r] == old(reports)[r]
      ensures !reporting ==> reports == map[]
    {
      hide S.TouchRun, S.Open, S.Absorb, S.TouchEvents, S.OpenEvents, S.Indexed, ValuesOf;
      if packet.Short? || CHUNK < |packet.payload| {
        return S.Rejected(S.PacketLength);
      }
      var h := packet.header;
      if !h.magicMatches || h.version != 1 || h.kind !in {1, 2} || h.run == 0 || h.time.NonFinite? {
        return S.Rejected(S.BadHeader);
      }
      if h.total > config.maximumMessageBytes {
        return S.Rejected(S.MessageByteLimit);
      }
      if h.parts != PartCount(h.total) || h.part >= h.parts {
        return S.Rejected(S.BadParts);
      }
      if |packet.payload| != PartLength(h.total, h.part) {
        return S.Rejected(S.PartLengthMismatch);
      }
      PendingValid(Abstract());
      S.TouchIndexed(config, Abstract(), h.run);
      TouchRun(h.run);
      outcome := Assemble(h, h.time.seconds, packet.payload);
    }

    /** Observes a delivered message in the report of its run, made when there is none. */
    method Report(m: R.Message, at: real)
      requires reporting && Separate(reports)
      requires R.ZipFits(S.ReportOf(Abstract(), m.key.lane.run), m, S.DescriptorOf(Abstract(), m.key.lane.run))
      modifies `reports, reports.Values
      ensures Abstract() == S.Reported(old(Abstract()), m, at) && Separate(reports)
    {
      hide R.Observe, R.ZipFits;
      var run := m.key.lane.run;
      var descriptor := if run in descriptions then Some(descriptions[run]) else None;
      if run !in reports {
        var report := new RunReport();
        reports := reports[run := report];
      }
      assert reports[run].Value() == S.ReportOf(old(Abstract()), run);
      reports[run].Observe(m, descriptor, at);
      assert ValuesOf(reports) == old(ValuesOf(reports))[run := reports[run].Value()];
    }

    /** `feed`: counts the datagram, reassembles, and reports a delivered message. */
    method Feed(packet: Packet, receivedAt: real) returns (message: Option<R.Message>)
      requires Valid()
      modifies this, reports.Values
      ensures Valid()
      ensures var r := I.Feed(config, old(Abstract()), S.Arrival(packet, receivedAt));
              && Abstract() == r.state
              && message == if r.outcome.Delivered? then Some(r.outcome.message) else None
    {
      hide I.Feed, S.Reassemble, S.Reported, I.Inv, R.Observe, R.ZipFits, S.Indexed, ValuesOf;
      I.FeedReported(config, Abstract(), S.Arrival(packet, receivedAt));
      statistics := statistics.(datagrams := statistics.datagrams + 1);
      var outcome := Reassemble(packet);
      if outcome.Rejected? {
        statistics := statistics.(invalid := statistics.invalid + 1);
        return None;
      }
      if !outcome.Delivered? {
        return None;
      }
      if reporting {
        Report(outcome.message, receivedAt);
      } else {
        Unreported(Abstract(), outcome.message, receivedAt);
      }
      return Some(outcome.message);
    }
  }

  lemma Unreported(s: S.State, m: R.Message, at: real)
    requires s.reports.None?
    ensures S.Reported(s, m, at) == s
  {
  }

  lemma PendingValid(s: S.State)
    requires S.Indexed(s)
    ensures s.pending.Valid()
  {
  }

  lemma ValuesWithout(reports: map<RunId, RunReport>, oldest: RunId)
    ensures ValuesOf(reports - {oldest}) == ValuesOf(reports) - {oldest}
  {
  }

  lemma ForgetValid(s: S.State, run: RunId)
    requires s.pending.Valid()
    ensures S.Forget(s, run).pending.Valid()
  {
  }

  lemma RemoveAfterPut(t: Table<Key, S.Entry>, key: Key, e: S.Entry)
    requires key in t.items
    ensures t.Put(key, e).Remove(key) == t.Remove(key)
  {
  }

  /** The table once the first `i` keys have been examined. */
  ghost function HalfKept(t: Table<Key, S.Entry>, keep: Key -> bool, i: nat): Table<Key, S.Entry>
    requires i <= |t.order|
  {
    Table(Filter(t.order[..i], keep) + t.order[i..],
          t.items - (set k | k in t.items && !keep(k) && k !in t.order[i..]))
  }

  lemma HalfEnds(t: Table<Key, S.Entry>, keep: Key -> bool)
    requires t.Valid()
    ensures HalfKept(t, keep, 0) == t
    ensures HalfKept(t, keep, |t.order|) == t.Keep(keep)
  {
    hide Distinct;
    assert t.order[..0] == [] && t.order[0..] == t.order && t.order[..|t.order|] == t.order;
    assert HalfKept(t, keep, 0).items == t.items;
    assert HalfKept(t, keep, |t.order|).items == t.Keep(keep).items;
  }

  lemma HalfStep(t: Table<Key, S.Entry>, keep: Key -> bool, i: nat)
    requires t.Valid() && i < |t.order|
    ensures var half := HalfKept(t, keep, i);
            if keep(t.order[i]) then HalfKept(t, keep, i + 1) == half
            else HalfKept(t, keep, i + 1) == half.Remove(t.order[i])
                 && |HalfKept(t, keep, i + 1).order| == |half.order| - 1
  {
    hide Filter;
    var keys := t.order;
    assert keys[..i + 1] == keys[..i] + [keys[i]];
    FilterAppend(keys[..i], keys[i], keep);
    assert keys[i..] == [keys[i]] + keys[i + 1..];
    if keep(keys[i]) {
      assert HalfKept(t, keep, i + 1).items == HalfKept(t, keep, i).items;
    } else {
      var half := HalfKept(t, keep, i);
      DeleteOne(Filter(keys[..i], keep), keys, i);
      HalfItems(t, keep, i);
      assert HalfKept(t, keep, i + 1).order == half.Remove(keys[i]).order;
      assert HalfKept(t, keep, i + 1) == half.Remove(keys[i]);
    }
  }

  lemma TailWithout(keys: seq<Key>, i: nat, k: Key)
    requires Distinct(keys) && i < |keys|
    ensures k in keys[i + 1..] <==> k in keys[i..] && k != keys[i]
  {
    assert keys[i..] == [keys[i]] + keys[i + 1..];
    if k in keys[i + 1..] {
      var j :| 0 <= j < |keys[i + 1..]| && keys[i + 1..][j] == k;
      assert keys[i + 1 + j] == k;
    }
  }

  lemma HalfItems(t: Table<Key, S.Entry>, keep: Key -> bool, i: nat)
    requires t.Valid() && i < |t.order| && !keep(t.order[i])
    ensures HalfKept(t, keep, i + 1).items == HalfKept(t, keep, i).Remove(t.order[i]).items
  {
    var key, early, late := t.order[i], t.order[i..], t.order[i + 1..];
    forall k ensures (k in late) <==> (k in early && k != key) {
      TailWithout(t.order, i, k);
    }
    hide Filter, Distinct;
    var items := t.items;
    var before := items - (set k | k in items && !keep(k) && k !in early);
    assert items - (set k | k in items && !keep(k) && k !in late)
        == before - (set k | k in before && k == key);
  }

  lemma DeleteOne(kept: seq<Key>, keys: seq<Key>, i: nat)
    requires Distinct(keys) && i < |keys| && forall k :: k in kept ==> k in keys[..i]
    ensures Filter(kept + keys[i..], Except(keys[i])) == kept + keys[i + 1..]
  {
    FilterDelete(kept, keys[i], keys[i + 1..], Except(keys[i]));
    assert keys[i..] == [keys[i]] + keys[i + 1..];
    assert kept + keys[i..] == kept + [keys[i]] + keys[i + 1..];
  }

  lemma {:induction false} FilterDelete(a: seq<Key>, x: Key, b: seq<Key>, keep: Key -> bool)
    requires !keep(x) && (forall k :: k in a ==> keep(k)) && (forall k :: k in b ==> keep(k))
    ensures Filter(a + [x] + b, keep) == a + b
  {
    if a == [] {
      FilterAll(b, keep);
      assert (a + [x] + b)[1..] == b;
    } else {
      FilterDelete(a[1..], x, b, keep);
      assert (a + [x] + b)[1..] == a[1..] + [x] + b;
      assert a + b == [a[0]] + (a[1..] + b);
    }
  }
}

/** What every datagram keeps, accepted or rejected, and the whole `feed` step. */
module ReassemblyInvariant {
  import opened Wrappers
  import opened OrderedTables
  import opened SceneStream
  import opened RunReports
  import opened Reassembly

  ghost predicate WellSized(c: Config, e: Entry) {
    && e.parts == PartCount(e.total) && e.total <= c.maximumMessageBytes
    && |e.chunks| < e.parts
    && forall i :: i in e.chunks ==> i < e.parts && |e.chunks[i]| == PartLength(e.total, i)
  }

  ghost predicate Bounded(c: Config, s: State) {
    && s.pending.Valid() && |s.pending.order| <= c.maximumPending
    && Distinct(s.runs) && |s.runs| <= c.maximumRuns
  }

  /** Every table mentions retained runs only. */
  ghost predicate Retained(s: State) {
    && (forall k :: k in s.pending.items ==> k.lane.run in s.runs)
    && (forall lane :: lane in s.latest ==> lane.run in s.runs)
    && (forall run :: run in s.descriptions ==> Lane(run, 1) in s.latest)
    && (s.reports.Some? ==> forall run :: run in s.reports.value ==> run in s.runs)
  }

  /** Every pending message is ahead of its lane and has some but not all of its parts. */
  ghost predicate Waiting(c: Config, s: State, opening: Option<Key>) {
    forall k :: k in s.pending.items ==>
      && !IsOld(s, k) && WellSized(c, s.pending.items[k])
      && (opening != Some(k) ==> s.pending.items[k].chunks != map[])
  }

  ghost predicate Core(c: Config, s: State, opening: Option<Key>) {
    Bounded(c, s) && Retained(s) && Waiting(c, s, opening)
  }

  // ----- reports beside descriptions and latest

  /** A retained report against what the receiver knows of its run. */
  ghost predicate ReportAgrees(s: State, run: RunId, r: Report) {
    var lane := Lane(run, 2);
    && (0 < r.states <==> lane in s.latest) && (0 < r.states <==> r.cadence.Some?)
    && (r.states == 0 ==> r.gaps == 0)
    && (0 < r.states ==>
          var c := r.cadence.value;
          c.lastSequence == s.latest[lane] && r.states + r.gaps == c.lastSequence - c.firstSequence + 1)
    && (run in s.descriptions <==> 0 < r.descriptions)
    && (if run in s.descriptions then |r.statusCounts| == |s.descriptions[run].scalarNames|
        else r.statusCounts == [] && r.states == r.unboundStates)
    && r.unboundStates <= r.states
    && forall i :: 0 <= i < |r.statusCounts| ==> r.statusCounts[i].Sum() == r.states - r.unboundStates
  }

  /** Exactly the runs with a delivered message since their last eviction have a report. */
  ghost predicate ReportsAgree(s: State) {
    s.reports.Some? ==>
      && (forall run :: run in s.reports.value ==> ReportAgrees(s, run, s.reports.value[run]))
      && (forall lane :: lane in s.latest ==> lane.run in s.reports.value && (lane.kind == 1 || lane.kind == 2))
      && (forall run :: run in s.reports.value ==> Lane(run, 1) in s.latest || Lane(run, 2) in s.latest)
  }

  ghost predicate Inv(c: Config, s: State) {
    Core(c, s, None) && ReportsAgree(s)
  }

  /** The receiver as constructed. */
  function Start(c: Config, reporting: bool): (s: State)
    requires c.Valid()
    ensures Inv(c, s)
  {
    Initial(reporting)
  }

  // ----- recency of runs

  lemma TouchBounded(c: Config, s: State, run: RunId)
    requires c.Valid() && Bounded(c, s)
    ensures Bounded(c, TouchRun(c, s, run)) && run in TouchRun(c, s, run).runs
  {
    var runs := MoveToEnd(s.runs, run);
    FilterDistinct(s.runs, other => other != run);
    assert runs[|runs| - 1] == run;
    if run in s.runs {
      FilterDropsOne(s.runs, other => other != run);
    }
    if |runs| > c.maximumRuns {
      assert runs[1..][|runs| - 2] == run;
    }
  }

  /** Touching keeps every run except, at most, the one it evicts. */
  lemma TouchedRuns(c: Config, s: State, run: RunId)
    requires c.Valid()
    ensures var runs := MoveToEnd(s.runs, run);
            if |runs| <= c.maximumRuns then forall r :: r in s.runs ==> r in TouchRun(c, s, run).runs
            else forall r :: r in s.runs && r != runs[0] ==> r in TouchRun(c, s, run).runs
  {
    var runs := MoveToEnd(s.runs, run);
    assert forall r :: r in s.runs ==> r in runs by {
      forall r | r in s.runs ensures r in runs {
        assert runs[|runs| - 1] == run;
      }
    }
    if |runs| > c.maximumRuns {
      assert runs == [runs[0]] + runs[1..];
    }
  }

  lemma TouchRetained(c: Config, s: State, run: RunId)
    requires c.Valid() && Retained(s)
    ensures Retained(TouchRun(c, s, run))
  {
    hide MoveToEnd;
    TouchedRuns(c, s, run);
  }

  lemma TouchWaiting(c: Config, s: State, run: RunId)
    requires c.Valid() && Waiting(c, s, None)
    ensures Waiting(c, TouchRun(c, s, run), None)
  {
    hide MoveToEnd, WellSized;
  }

  lemma TouchReports(c: Config, s: State, run: RunId)
    requires c.Valid() && ReportsAgree(s)
    ensures ReportsAgree(TouchRun(c, s, run))
  {
    hide MoveToEnd, ReportAgrees;
    var t := TouchRun(c, s, run);
    if s.reports.Some? {
      forall r | r in t.reports.value ensures ReportAgrees(t, r, t.reports.value[r]) {
        TouchReport(c, s, run, r);
      }
    }
  }

  lemma TouchReport(c: Config, s: State, run: RunId, r: RunId)
    requires c.Valid() && s.reports.Some? && r in s.reports.value && ReportAgrees(s, r, s.reports.value[r])
    ensures var t := TouchRun(c, s, run);
            t.reports.Some? && (r in t.reports.value ==>
              t.reports.value[r] == s.reports.value[r] && ReportAgrees(t, r, s.reports.value[r]))
  {
    hide MoveToEnd;
  }

  lemma TouchKeeps(c: Config, s: State, run: RunId)
    requires c.Valid() && Inv(c, s)
    ensures Inv(c, TouchRun(c, s, run)) && run in TouchRun(c, s, run).runs
  {
    hide Bounded, Retained, Waiting, ReportsAgree, TouchRun;
    TouchBounded(c, s, run);
    TouchRetained(c, s, run);
    TouchWaiting(c, s, run);
    TouchReports(c, s, run);
  }

  // ----- the pending table

  function Fresh(h: Header): Entry
    requires h.time.Finite?
  {
    Entry(h.time.seconds, h.parts, h.total, map[])
  }

  lemma OpenBounded(c: Config, s: State, key: Key, e: Entry)
    requires c.Valid() && Bounded(c, s)
    ensures Bounded(c, Open(c, s, key, e))
  {
  }

  lemma OpenRetained(c: Config, s: State, key: Key, e: Entry)
    requires Retained(s) && key.lane.run in s.runs
    ensures Retained(Open(c, s, key, e))
  {
  }

  lemma OpenWaiting(c: Config, s: State, key: Key, e: Entry)
    requires Waiting(c, s, None) && !IsOld(s, key) && WellSized(c, e)
    ensures Waiting(c, Open(c, s, key, e), Some(key))
  {
    hide WellSized;
  }

  lemma OpenKeeps(c: Config, s: State, h: Header)
    requires c.Valid() && Core(c, s, None) && h.run in s.runs && !IsOld(s, KeyOf(h))
    requires h.parts == PartCount(h.total) && h.total <= c.maximumMessageBytes && h.time.Finite?
    ensures Core(c, Open(c, s, KeyOf(h), Fresh(h)), Some(KeyOf(h)))
  {
    hide Bounded, Retained, Waiting, Open;
    OpenBounded(c, s, KeyOf(h), Fresh(h));
    OpenRetained(c, s, KeyOf(h), Fresh(h));
    OpenWaiting(c, s, KeyOf(h), Fresh(h));
  }

  lemma CloseKeeps(c: Config, s: State, key: Key)
    requires Core(c, s, Some(key))
    ensures Core(c, Close(s, key), None)
  {
    hide WellSized;
  }

  lemma StoreKeeps(c: Config, s: State, key: Key, chunks: map<nat, Bytes>)
    requires Core(c, s, Some(key)) && key in s.pending.items
    requires WellSized(c, s.pending.items[key].(chunks := chunks)) && chunks != map[]
    ensures Core(c, Store(s, key, chunks), None)
  {
    hide WellSized;
  }

  lemma CommitKeeps(c: Config, s: State, m: Message)
    requires Core(c, s, None) && m.key.lane.run in s.runs
    requires m.DescriptionMessage? ==> m.key.lane.kind == 1
    ensures Core(c, Commit(s, m), None)
  {
    CommitRetained(s, m);
    CommitWaiting(c, s, m);
  }

  lemma CommitRetained(s: State, m: Message)
    requires Retained(s) && m.key.lane.run in s.runs
    requires m.DescriptionMessage? ==> m.key.lane.kind == 1
    ensures Retained(Commit(s, m))
  {
  }

  lemma CommitWaiting(c: Config, s: State, m: Message)
    requires Waiting(c, s, None)
    ensures Waiting(c, Commit(s, m), None)
  {
    hide WellSized;
  }

  lemma AbsorbKeeps(c: Config, s: State, key: Key, h: Header, time: real, payload: Bytes)
    requires Core(c, s, Some(key)) && key in s.pending.items && key == KeyOf(h)
    requires h.part < h.parts && h.parts == PartCount(h.total) && |payload| == PartLength(h.total, h.part)
    requires h.kind == 1 || h.kind == 2
    ensures Indexed(s) && Core(c, Absorb(c, s, key, h, time, payload).0, None)
  {
    hide Bounded, Retained, Waiting, Commit, Close, Store, Interpret, PartCount;
    CoreIndexed(c, s, Some(key));
    CloseKeeps(c, s, key);
    WaitingEntry(c, s, key);
    var e := s.pending.items[key];
    if (time, h.parts, h.total) == (e.time, e.parts, e.total) {
      if h.part !in e.chunks {
        var chunks := e.chunks[h.part := payload];
        FullChunks(chunks, e.parts);
        assert h.part in chunks;
        if |chunks| != h.parts {
          StoreKeeps(c, s, key, chunks);
        } else {
          var outcome := Interpret(c, Close(s, key), key, time, Join(chunks, h.parts));
          CloseFrames(s, key);
          if outcome.Delivered? {
            DeliveredKey(c, Close(s, key), key, time, Join(chunks, h.parts));
            CommitKeeps(c, Close(s, key), outcome.message);
          }
        }
      } else {
        RepeatKeeps(c, s, key);
      }
    }
  }

  lemma WaitingEntry(c: Config, s: State, key: Key)
    requires Core(c, s, Some(key)) && key in s.pending.items
    ensures WellSized(c, s.pending.items[key]) && key.lane.run in s.runs
  {
  }

  lemma CloseFrames(s: State, key: Key)
    ensures Close(s, key) == s.(pending := Close(s, key).pending)
  {
  }

  lemma RepeatKeeps(c: Config, s: State, key: Key)
    requires Core(c, s, Some(key)) && key in s.pending.items && s.pending.items[key].chunks != map[]
    ensures Core(c, CountRepeated(s), None)
  {
    hide WellSized;
  }

  /** A delivery is the interpretation of some bytes, committed; nothing else moves `latest` or `descriptions`. */
  lemma AbsorbFrames(c: Config, s: State, key: Key, h: Header, time: real, payload: Bytes)
    returns (bytes: Bytes)
    requires Indexed(s) && key in s.pending.items && h.part < h.parts
    ensures var (s', o) := Absorb(c, s, key, h, time, payload);
            if o.Delivered? then
              && s' == Commit(Close(s, key), o.message)
              && o == Interpret(c, Close(s, key), key, time, bytes)
            else s' == s.(pending := s'.pending,
                          statistics := s.statistics.(duplicateOrOld := s'.statistics.duplicateOrOld))
  {
    hide Commit, Interpret;
    bytes := [];
    var e := s.pending.items[key];
    if (time, h.parts, h.total) == (e.time, e.parts, e.total) && h.part !in e.chunks {
      var chunks := e.chunks[h.part := payload];
      FullChunks(chunks, h.parts);
      if |chunks| == h.parts {
        bytes := Join(chunks, h.parts);
      }
    }
  }

  // ----- reports

  lemma ReportStep(s: State, run: RunId, r: Report, m: Message, at: real)
    requires ReportAgrees(s, run, r) && run == m.key.lane.run && !IsOld(s, m.key)
    requires m.key.lane.kind == (if m.DescriptionMessage? then 1 else 2)
    requires m.StateMessage? ==> m.names == DescriptorOf(s, run) && CountsAgree(m.names, m.frame)
    requires m.DescriptionMessage? && run in s.descriptions ==> s.descriptions[run] == m.descriptor
    ensures ZipFits(r, m, DescriptorOf(Commit(s, m), run))
    ensures ReportAgrees(Commit(s, m), run, Observe(r, m, DescriptorOf(Commit(s, m), run), at))
  {
  }

  /** Other runs' reports still agree after a delivery. */
  lemma OtherReports(s: State, m: Message, run: RunId, r: Report)
    requires ReportAgrees(s, run, r) && run != m.key.lane.run
    ensures ReportAgrees(Commit(s, m), run, r)
  {
  }

  /** Observing a delivered message never trips the strict zip, and keeps reports in step. */
  lemma CommitReports(c: Config, s: State, key: Key, time: real, bytes: Bytes, at: real)
    requires ReportsAgree(s) && Retained(s) && !IsOld(s, key) && (key.lane.kind == 1 || key.lane.kind == 2)
    requires Interpret(c, s, key, time, bytes).Delivered?
    ensures var m := Interpret(c, s, key, time, bytes).message;
            var s' := Commit(s, m);
            && (s'.reports.Some? ==> ZipFits(ReportOf(s', key.lane.run), m, DescriptorOf(s', key.lane.run)))
            && ReportsAgree(Reported(s', m, at))
  {
    if s.reports.Some? {
      var run := key.lane.run;
      var m := Interpret(c, s, key, time, bytes).message;
      var r := ReportOf(s, run);
      assert ReportAgrees(s, run, r) by { UnseenAgrees(s, run); }
      ReportStep(s, run, r, m, at);
      hide ReportAgrees, Observe, Interpret, ZipFits;
      var s' := Commit(s, m);
      forall other | other in s.reports.value && other != run
        ensures ReportAgrees(s', other, s.reports.value[other])
      {
        OtherReports(s, m, other, s.reports.value[other]);
      }
      ReportsMerge(s', m, at);
    }
  }

  lemma UnseenAgrees(s: State, run: RunId)
    requires s.reports.Some? && ReportsAgree(s) && Retained(s)
    ensures ReportAgrees(s, run, ReportOf(s, run))
  {
  }

  lemma ReportsMerge(s: State, m: Message, at: real)
    requires var run := m.key.lane.run;
             && s.reports.Some? && m.key.lane in s.latest && (m.key.lane.kind == 1 || m.key.lane.kind == 2)
             && ZipFits(ReportOf(s, run), m, DescriptorOf(s, run))
             && ReportAgrees(s, run, Observe(ReportOf(s, run), m, DescriptorOf(s, run), at))
             && (forall other :: other in s.reports.value && other != run ==>
                   ReportAgrees(s, other, s.reports.value[other])
                   && (Lane(other, 1) in s.latest || Lane(other, 2) in s.latest))
             && (forall lane :: lane in s.latest && lane.run != run ==>
                   lane.run in s.reports.value && (lane.kind == 1 || lane.kind == 2))
             && (forall lane :: lane in s.latest && lane.run == run ==> lane.kind == 1 || lane.kind == 2)
    ensures ReportsAgree(Reported(s, m, at))
  {
    hide Observe, ZipFits;
    var s' := Reported(s, m, at);
    forall run | run in s'.reports.value ensures ReportAgrees(s', run, s'.reports.value[run]) {
      ReportFrames(s, s', run, s'.reports.value[run]);
    }
  }

  lemma ReportFrames(s: State, s': State, run: RunId, r: Report)
    requires ReportAgrees(s, run, r) && s'.latest == s.latest && s'.descriptions == s.descriptions
    ensures ReportAgrees(s', run, r)
  {
  }

  // ----- the whole step

  lemma CoreIndexed(c: Config, s: State, opening: Option<Key>)
    requires Core(c, s, opening)
    ensures Indexed(s)
  {
  }

  /** Where reports meet reassembly: a delivered message can be observed, and then all agree. */
  ghost predicate Observable(c: Config, r: Reaction, at: real) {
    && Core(c, r.state, None)
    && if r.outcome.Delivered? then
         var m := r.outcome.message;
         && (r.state.reports.Some? ==>
               ZipFits(ReportOf(r.state, m.key.lane.run), m, DescriptorOf(r.state, m.key.lane.run)))
         && Inv(c, Reported(r.state, m, at))
       else ReportsAgree(r.state)
  }

  lemma AbsorbObservable(c: Config, s: State, h: Header, payload: Bytes, events: seq<Event>, at: real)
    requires c.Valid() && Core(c, s, Some(KeyOf(h))) && ReportsAgree(s) && KeyOf(h) in s.pending.items
    requires h.part < h.parts && h.parts == PartCount(h.total) && |payload| == PartLength(h.total, h.part)
    requires (h.kind == 1 || h.kind == 2) && h.time.Finite?
    ensures Indexed(s)
    ensures var (s', o) := Absorb(c, s, KeyOf(h), h, h.time.seconds, payload);
            Observable(c, Reaction(s', o, events), at)
  {
    var key := KeyOf(h);
    AbsorbKeeps(c, s, key, h, h.time.seconds, payload);
    assert !IsOld(s, key) && key.lane.run in s.runs;
    hide Absorb, Bounded, Retained, Waiting, ReportsAgree, Reported, ZipFits, Commit, Interpret;
    var (s', o) := Absorb(c, s, key, h, h.time.seconds, payload);
    var bytes := AbsorbFrames(c, s, key, h, h.time.seconds, payload);
    if o.Delivered? {
      CloseKeeps(c, s, key);
      CloseReports(s, key);
      CloseFrames(s, key);
      assert Retained(Close(s, key));
      assert !IsOld(Close(s, key), key);
      CommitReports(c, Close(s, key), key, h.time.seconds, bytes, at);
      DeliveredKey(c, Close(s, key), key, h.time.seconds, bytes);
      ReportedKeeps(c, s', o.message, at);
    } else {
      ReportsFrame(s, s');
    }
  }

  lemma DeliveredKey(c: Config, s: State, key: Key, time: real, bytes: Bytes)
    requires Interpret(c, s, key, time, bytes).Delivered?
    ensures var m := Interpret(c, s, key, time, bytes).message;
            m.key == key && m.time == time && (m.DescriptionMessage? <==> key.lane.kind == 1)
    ensures Commit(s, Interpret(c, s, key, time, bytes).message).runs == s.runs
  {
  }

  lemma CloseReports(s: State, key: Key)
    requires ReportsAgree(s)
    ensures ReportsAgree(Close(s, key))
  {
    ReportsFrame(s, Close(s, key));
  }

  lemma ReportsFrame(s: State, s': State)
    requires ReportsAgree(s) && s'.latest == s.latest && s'.descriptions == s.descriptions && s'.reports == s.reports
    ensures ReportsAgree(s')
  {
  }

  lemma ReportedKeeps(c: Config, s: State, m: Message, at: real)
    requires Core(c, s, None) && m.key.lane.run in s.runs
    requires s.reports.Some? ==> ZipFits(ReportOf(s, m.key.lane.run), m, DescriptorOf(s, m.key.lane.run))
    ensures Core(c, Reported(s, m, at), None)
  {
    hide Observe;
  }

  lemma ReassembleKeeps(c: Config, s: State, p: Packet, at: real)
    requires c.Valid() && Inv(c, s)
    ensures Indexed(s)
    ensures Observable(c, Reassemble(c, s, p), at)
  {
    hide Core, ReportsAgree, TouchRun, Open, Absorb, Observable, TouchEvents, OpenEvents;
    CoreIndexed(c, s, None);
    if Admitted(c, p) {
      var h, key := p.header, KeyOf(p.header);
      var t := TouchRun(c, s, h.run);
      TouchKeeps(c, s, h.run);
      if IsOld(t, key) {
        RepeatedObservable(c, t, TouchEvents(c, s, h.run), at);
      } else {
        OpenKeeps(c, t, h);
        CoreIndexed(c, t, None);
        OpenHolds(c, t, key, Fresh(h));
        var o := Open(c, t, key, Fresh(h));
        OpenReports(c, t, key, Fresh(h));
        var outcome := Absorb(c, o, key, h, h.time.seconds, p.payload).1;
        AbsorbObservable(c, o, h, p.payload,
          TouchEvents(c, s, h.run) + OpenEvents(c, t, key) + MessageEvents(outcome), at);
      }
    } else {
      RefusedObservable(c, s, Refusal(c, p).value, at);
    }
  }

  lemma OpenReports(c: Config, s: State, key: Key, e: Entry)
    requires ReportsAgree(s)
    ensures ReportsAgree(Open(c, s, key, e))
  {
    ReportsFrame(s, Open(c, s, key, e));
  }

  lemma RepeatedObservable(c: Config, s: State, events: seq<Event>, at: real)
    requires Inv(c, s)
    ensures Observable(c, Reaction(CountRepeated(s), Repeated, events), at)
  {
  }

  lemma RefusedObservable(c: Config, s: State, reason: Reason, at: real)
    requires Inv(c, s)
    ensures Observable(c, Reaction(s, Rejected(reason), []), at)
  {
  }

  lemma CountDatagramKeeps(c: Config, s: State)
    requires Inv(c, s)
    ensures Inv(c, CountDatagram(s))
  {
  }

  /** `feed`: counters, reassembly, and the report of a delivered message. */
  function Feed(c: Config, s: State, a: Arrival): Reaction
    requires c.Valid() && Inv(c, s)
  {
    CountDatagramKeeps(c, s);
    ReassembleKeeps(c, CountDatagram(s), a.packet, a.at);
    var r := Reassemble(c, CountDatagram(s), a.packet);
    match r.outcome
    case Rejected(_) => r.(state := CountInvalid(r.state))
    case Delivered(m) => r.(state := Reported(r.state, m, a.at))
    case _ => r
  }

  lemma CountInvalidKeeps(c: Config, s: State)
    requires Inv(c, s)
    ensures Inv(c, CountInvalid(s))
  {
  }

  /** Every datagram, including a rejected one, preserves the receiver invariant. */
  lemma FeedKeepsInv(c: Config, s: State, a: Arrival)
    requires c.Valid() && Inv(c, s)
    ensures Inv(c, Feed(c, s, a).state)
  {
    hide Reassemble, Core, ReportsAgree, Reported, CountInvalid;
    CountDatagramKeeps(c, s);
    ReassembleKeeps(c, CountDatagram(s), a.packet, a.at);
    var r := Reassemble(c, CountDatagram(s), a.packet);
    if r.outcome.Rejected? {
      CountInvalidKeeps(c, r.state);
    }
  }

  /** `feed` in terms of reassembly, with what it needs of the invariant. */
  lemma FeedReported(c: Config, s: State, a: Arrival)
    requires c.Valid() && Inv(c, s)
    ensures Inv(c, CountDatagram(s)) && Indexed(CountDatagram(s)) && Inv(c, Feed(c, s, a).state)
    ensures var r, q := Feed(c, s, a), Reassemble(c, CountDatagram(s), a.packet);
            && r.outcome == q.outcome && r.events == q.events
            && match q.outcome
               case Delivered(m) =>
                 && (q.state.reports.Some? ==>
                       ZipFits(ReportOf(q.state, m.key.lane.run), m, DescriptorOf(q.state, m.key.lane.run)))
                 && r.state == Reported(q.state, m, a.at)
               case Rejected(_) => r.state == CountInvalid(q.state)
               case _ => r.state == q.state
  {
    hide Reassemble, Core, ReportsAgree, ZipFits, Reported;
    CountDatagramKeeps(c, s);
    CoreIndexed(c, CountDatagram(s), None);
    ReassembleKeeps(c, CountDatagram(s), a.packet, a.at);
    FeedKeepsInv(c, s, a);
  }

  // ----- memory bound

  function PendingBytes(order: seq<Key>, items: map<Key, Entry>): nat
    requires forall k :: k in order ==> k in items
  {
    if order == [] then 0
    else HeldBytes(items[order[0]].chunks, items[order[0]].parts) + PendingBytes(order[1..], items)
  }

  /** A pending message lacks a part, so it holds fewer bytes than the message has. */
  lemma HeldBelowTotal(c: Config, e: Entry)
    requires WellSized(c, e) && e.chunks != map[]
    ensures HeldBytes(e.chunks, e.parts) < e.total
  {
    FullChunks(e.chunks, e.parts);
    HeldBytesBound(e.chunks, e.total, e.parts);
    var i :| i in e.chunks;
    assert 0 < |e.chunks|;
  }

  lemma {:induction false} PendingBytesBound(order: seq<Key>, items: map<Key, Entry>, limit: nat)
    requires forall k :: k in order ==> k in items && HeldBytes(items[k].chunks, items[k].parts) < limit
    ensures PendingBytes(order, items) + |order| <= |order| * limit
  {
    if order != [] {
      PendingBytesBound(order[1..], items, limit);
      OneMore(|order[1..]|, limit);
    }
  }

  lemma OneMore(n: nat, limit: nat)
    ensures (n + 1) * limit == n * limit + limit
  {
  }

  lemma ProductGrows(n: nat, limit: nat, size: nat)
    requires n <= limit && 1 <= limit && 1 <= size
    ensures n * size <= limit * size && 1 <= limit * size
  {
    assert limit * size == n * size + (limit - n) * size;
    assert limit * size == size + (limit - 1) * size;
  }

  /** Buffered bytes stay below the pending limit times the message limit. */
  lemma BufferedBytesBounded(c: Config, s: State)
    requires c.Valid() && Inv(c, s)
    ensures PendingBytes(s.pending.order, s.pending.items) < c.maximumPending * c.maximumMessageBytes
  {
    forall k | k in s.pending.order
      ensures HeldBytes(s.pending.items[k].chunks, s.pending.items[k].parts) < c.maximumMessageBytes
    {
      HeldBelowTotal(c, s.pending.items[k]);
    }
    hide ReportsAgree, Retained, Waiting;
    PendingBytesBound(s.pending.order, s.pending.items, c.maximumMessageBytes);
    ProductGrows(|s.pending.order|, c.maximumPending, c.maximumMessageBytes);
  }
}

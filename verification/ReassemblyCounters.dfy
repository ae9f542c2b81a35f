/** The receiver's counters against what happened, over whole histories. */
module ReassemblyCounters {
  import opened Wrappers
  import opened OrderedTables
  import opened SceneStream
  import opened RunReports
  import opened Reassembly
  import opened ReassemblyInvariant
  import opened ReassemblyHistory

  /** What a history amounts to: refusals, repetitions, runs forgotten and incomplete messages lost with them or alone. */
  datatype Tally = Tally(datagrams: nat, rejected: nat, repeated: nat, runs: nat, lost: nat)

  /** The incomplete messages of a run. */
  function PendingOf(s: State, run: RunId): set<Key> {
    set k | k in s.pending.items && k.lane.run == run
  }

  function RunsIn(events: seq<Event>): nat {
    if events == [] then 0 else RunsIn(events[..|events| - 1]) + if events[|events| - 1].RunEvicted? then 1 else 0
  }

  /** The incomplete messages that go with these events: all of an evicted run's, and each evicted one. */
  function LostIn(s: State, events: seq<Event>): nat {
    if events == [] then 0
    else
      LostIn(s, events[..|events| - 1])
      + match events[|events| - 1]
        case RunEvicted(run) => |PendingOf(s, run)|
        case PendingEvicted(_) => 1
        case MessageDelivered(_) => 0
  }

  function Tallied(c: Config, s: State, ps: seq<Arrival>): Tally
    requires c.Valid() && Inv(c, s)
  {
    if ps == [] then Tally(0, 0, 0, 0, 0)
    else
      var init := ps[..|ps| - 1];
      var t, r := Tallied(c, s, init), ReactionAt(c, s, ps, |ps| - 1);
      Tally(t.datagrams + 1, t.rejected + (if r.outcome.Rejected? then 1 else 0),
            t.repeated + (if r.outcome.Repeated? then 1 else 0), t.runs + RunsIn(r.events),
            t.lost + LostIn(After(c, s, init), r.events))
  }

  // ----- the size of an ordered table

  lemma {:induction false} DistinctSize<T>(s: seq<T>, all: set<T>)
    requires Distinct(s) && forall x :: x in s <==> x in all
    ensures |s| == |all|
  {
    if s != [] {
      var init, last := s[..|s| - 1], s[|s| - 1];
      forall x ensures x in init <==> x in all - {last} {
        assert x in s <==> x in init || x == last;
      }
      DistinctSize(init, all - {last});
    }
  }

  /** Forgetting a run counts each of its incomplete messages. */
  lemma ForgetCounts(s: State, run: RunId)
    requires s.pending.Valid()
    ensures var t := Forget(s, run);
            && t.statistics == s.statistics.(evictedIncomplete := s.statistics.evictedIncomplete + |PendingOf(s, run)|)
            && t.evictedRuns == s.evictedRuns + 1
  {
    var kept := s.pending.Keep(OfOtherRun(run));
    hide Filter, Distinct;
    DistinctSize(s.pending.order, s.pending.items.Keys);
    DistinctSize(kept.order, kept.items.Keys);
    assert kept.items.Keys == s.pending.items.Keys - PendingOf(s, run);
    assert PendingOf(s, run) <= s.pending.items.Keys;
  }

  lemma TouchCounts(c: Config, s: State, run: RunId)
    requires s.pending.Valid()
    ensures var t := TouchRun(c, s, run);
            var events := TouchEvents(c, s, run);
            && t.statistics == s.statistics.(evictedIncomplete := s.statistics.evictedIncomplete + LostIn(s, events))
            && t.evictedRuns == s.evictedRuns + RunsIn(events)
  {
    var runs := MoveToEnd(s.runs, run);
    hide MoveToEnd, Forget;
    if |runs| > c.maximumRuns {
      ForgetCounts(s.(runs := runs[1..]), runs[0]);
      assert PendingOf(s.(runs := runs[1..]), runs[0]) == PendingOf(s, runs[0]);
      assert [RunEvicted(runs[0])][..0] == [];
    }
  }

  lemma OpenCounts(c: Config, s: State, base: State, key: Key, e: Entry)
    ensures var t := Open(c, s, key, e);
            var events := OpenEvents(c, s, key);
            && t.statistics == s.statistics.(evictedIncomplete := s.statistics.evictedIncomplete + LostIn(base, events))
            && t.evictedRuns == s.evictedRuns && RunsIn(events) == 0
  {
    if OpenEvents(c, s, key) != [] {
      assert OpenEvents(c, s, key)[..0] == [];
    }
  }

  /** Absorbing counts a repetition, a state frame and its gap, and nothing else. */
  lemma AbsorbCounts(c: Config, s: State, h: Header, payload: Bytes)
    requires Indexed(s) && KeyOf(h) in s.pending.items && h.part < h.parts && h.time.Finite?
    ensures var (t, o) := Absorb(c, s, KeyOf(h), h, h.time.seconds, payload);
            && t.statistics == s.statistics.(
                 duplicateOrOld := s.statistics.duplicateOrOld + (if o.Repeated? then 1 else 0),
                 stateFrames := t.statistics.stateFrames, sequenceGaps := t.statistics.sequenceGaps)
            && t.evictedRuns == s.evictedRuns
  {
    hide Join, Close, Commit, Store;
    var key := KeyOf(h);
    var o := Absorb(c, s, key, h, h.time.seconds, payload).1;
    CloseFrames(s, key);
    StoreFrames(s, key, s.pending.items[key].chunks[h.part := payload]);
    if o.Delivered? {
      CommitCounts(Close(s, key), o.message);
    }
  }

  lemma StoreFrames(s: State, key: Key, chunks: map<nat, Bytes>)
    requires key in s.pending.items
    ensures Store(s, key, chunks) == s.(pending := Store(s, key, chunks).pending)
  {
  }

  lemma CommitCounts(s: State, m: Message)
    ensures var t := Commit(s, m);
            && t.statistics == s.statistics.(stateFrames := t.statistics.stateFrames, sequenceGaps := t.statistics.sequenceGaps)
            && t.evictedRuns == s.evictedRuns
  {
  }

  lemma {:induction false} CountsConcat(s: State, a: seq<Event>, b: seq<Event>)
    ensures RunsIn(a + b) == RunsIn(a) + RunsIn(b) && LostIn(s, a + b) == LostIn(s, a) + LostIn(s, b)
  {
    if b == [] {
      assert a + b == a;
    } else {
      assert (a + b)[..|a + b| - 1] == a + b[..|b| - 1];
      CountsConcat(s, a, b[..|b| - 1]);
    }
  }

  lemma DeliveryCountsNothing(s: State, o: Outcome)
    ensures RunsIn(MessageEvents(o)) == 0 && LostIn(s, MessageEvents(o)) == 0
  {
    if o.Delivered? {
      assert MessageEvents(o)[..0] == [];
    }
  }

  /** One step of reassembly: each counter moves by what the outcome and the events say. */
  ghost predicate Moves(s: State, t: State, o: Outcome, events: seq<Event>) {
    && t.statistics == s.statistics.(
         duplicateOrOld := s.statistics.duplicateOrOld + (if o.Repeated? then 1 else 0),
         evictedIncomplete := s.statistics.evictedIncomplete + LostIn(s, events),
         stateFrames := t.statistics.stateFrames, sequenceGaps := t.statistics.sequenceGaps)
    && t.evictedRuns == s.evictedRuns + RunsIn(events)
  }

  lemma ReassembleCounts(c: Config, s: State, a: Arrival)
    requires c.Valid() && Inv(c, s)
    ensures Indexed(CountDatagram(s))
    ensures var q := Reassemble(c, CountDatagram(s), a.packet); Moves(CountDatagram(s), q.state, q.outcome, q.events)
  {
    CountDatagramKeeps(c, s);
    CoreIndexed(c, CountDatagram(s), None);
    var d := CountDatagram(s);
    if Admitted(c, a.packet) {
      AdmittedCounts(c, s, a);
    }
  }

  lemma AdmittedCounts(c: Config, s: State, a: Arrival)
    requires c.Valid() && Inv(c, s) && Indexed(CountDatagram(s)) && Admitted(c, a.packet)
    ensures var q := Reassemble(c, CountDatagram(s), a.packet); Moves(CountDatagram(s), q.state, q.outcome, q.events)
  {
    var d, h := CountDatagram(s), a.packet.header;
    var key := KeyOf(h);
    AdmittedParts(c, a.packet);
    ReassembledOf(c, d, a.packet);
    OpenedHolds(c, s, a);
    hide Inv, Core, TouchRun, TouchEvents, Open, OpenEvents, Absorb, Admitted, Refusal, LostIn, RunsIn, MessageEvents, Reassemble,
         Indexed;
    PendingTable(d);
    TouchCounts(c, d, h.run);
    var t := TouchRun(c, d, h.run);
    var first, second := TouchEvents(c, d, h.run), OpenEvents(c, t, key);
    if IsOld(t, key) {
      RepeatMoves(d, t, first);
    } else {
      var o := Open(c, t, key, Fresh(h));
      OpenCounts(c, t, d, key, Fresh(h));
      AbsorbCounts(c, o, h, a.packet.payload);
      var (after, outcome) := Absorb(c, o, key, h, h.time.seconds, a.packet.payload);
      Composed(d, t, o, after, first, second, outcome);
    }
  }

  lemma RepeatMoves(d: State, t: State, first: seq<Event>)
    requires t.statistics == d.statistics.(evictedIncomplete := d.statistics.evictedIncomplete + LostIn(d, first))
    requires t.evictedRuns == d.evictedRuns + RunsIn(first)
    ensures Moves(d, CountRepeated(t), Repeated, first)
  {
    hide LostIn, RunsIn;
  }

  lemma Composed(d: State, t: State, o: State, u: State, first: seq<Event>, second: seq<Event>, outcome: Outcome)
    requires t.statistics == d.statistics.(evictedIncomplete := d.statistics.evictedIncomplete + LostIn(d, first))
    requires t.evictedRuns == d.evictedRuns + RunsIn(first)
    requires o.statistics == t.statistics.(evictedIncomplete := t.statistics.evictedIncomplete + LostIn(d, second))
    requires o.evictedRuns == t.evictedRuns && RunsIn(second) == 0
    requires u.statistics == o.statistics.(
               duplicateOrOld := o.statistics.duplicateOrOld + (if outcome.Repeated? then 1 else 0),
               stateFrames := u.statistics.stateFrames, sequenceGaps := u.statistics.sequenceGaps)
    requires u.evictedRuns == o.evictedRuns
    ensures Moves(d, u, outcome, first + second + MessageEvents(outcome))
  {
    CountsConcat(d, first, second);
    CountsConcat(d, first + second, MessageEvents(outcome));
    DeliveryCountsNothing(d, outcome);
    hide LostIn, RunsIn, MessageEvents;
  }

  lemma PendingTable(s: State)
    requires Indexed(s)
    ensures s.pending.Valid()
  {
  }

  lemma ReassembledOf(c: Config, s: State, p: Packet)
    requires c.Valid() && Indexed(s) && Admitted(c, p)
    ensures var h := p.header;
            var key, t := KeyOf(h), TouchRun(c, s, h.run);
            var q := Reassemble(c, s, p);
            if IsOld(t, key) then q == Reaction(CountRepeated(t), Repeated, TouchEvents(c, s, h.run))
            else
              var o := Open(c, t, key, Fresh(h));
              && Ready(o, key)
              && var (after, outcome) := Absorb(c, o, key, h, h.time.seconds, p.payload);
                 q == Reaction(after, outcome, TouchEvents(c, s, h.run) + OpenEvents(c, t, key) + MessageEvents(outcome))
  {
    hide TouchRun, TouchEvents, Open, OpenEvents, Absorb, MessageEvents, Indexed;
    TouchIndexed(c, s, p.header.run);
    if !IsOld(TouchRun(c, s, p.header.run), KeyOf(p.header)) {
      OpenHolds(c, TouchRun(c, s, p.header.run), KeyOf(p.header), Fresh(p.header));
    }
  }

  lemma AdmittedParts(c: Config, p: Packet)
    requires Admitted(c, p)
    ensures p.Packet? && p.header.part < p.header.parts && p.header.time.Finite?
  {
  }

  /** After any history the counters have grown by exactly what happened in it. */
  ghost predicate Grown(s: State, t: State, tally: Tally) {
    && t.statistics.datagrams == s.statistics.datagrams + tally.datagrams
    && t.statistics.invalid == s.statistics.invalid + tally.rejected
    && t.statistics.duplicateOrOld == s.statistics.duplicateOrOld + tally.repeated
    && t.statistics.evictedIncomplete == s.statistics.evictedIncomplete + tally.lost
    && t.evictedRuns == s.evictedRuns + tally.runs
  }

  lemma {:induction false} CountersCount(c: Config, s: State, ps: seq<Arrival>)
    requires c.Valid() && Inv(c, s)
    ensures Grown(s, After(c, s, ps), Tallied(c, s, ps)) && Tallied(c, s, ps).datagrams == |ps|
  {
    hide Feed, Reassemble, Inv, LostIn, RunsIn, Indexed, Observe, ZipFits;
    if ps != [] {
      var init, a := ps[..|ps| - 1], ps[|ps| - 1];
      var t := After(c, s, init);
      CountersCount(c, s, init);
      FeedReported(c, t, a);
      ReassembleCounts(c, t, a);
      SameLost(t, Feed(c, t, a).events);
    }
  }

  lemma {:induction false} SameLost(s: State, events: seq<Event>)
    ensures LostIn(CountDatagram(s), events) == LostIn(s, events)
  {
    if events != [] {
      SameLost(s, events[..|events| - 1]);
      assert forall run :: PendingOf(CountDatagram(s), run) == PendingOf(s, run);
    }
  }
}

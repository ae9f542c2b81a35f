/** The sequence counters against the spans of sequence numbers the log covers. */
module ReassemblyAccounting {
  import opened SceneStream
  import opened RunReports
  import opened Reassembly
  import opened ReassemblyInvariant
  import opened ReassemblyHistory

  /** First and last delivered sequence of a state lane with no eviction in between. */
  datatype Span = Span(first: nat, last: nat) {
    function Length(): int { last - first + 1 }
  }

  /** The spans still open, by run, and the summed length of those that evictions closed. */
  datatype Account = Account(open: map<RunId, Span>, closed: int)

  function Book(acc: Account, e: Event): Account {
    match e
    case MessageDelivered(key) =>
      if key.lane.kind != 2 then acc
      else
        var run := key.lane.run;
        var first := if run in acc.open then acc.open[run].first else key.sequence;
        acc.(open := acc.open[run := Span(first, key.sequence)])
    case RunEvicted(run) =>
      if run in acc.open then Account(acc.open - {run}, acc.closed + acc.open[run].Length()) else acc
    case PendingEvicted(_) => acc
  }

  function Tally(acc: Account, log: seq<Event>): Account {
    if log == [] then acc else Book(Tally(acc, log[..|log| - 1]), log[|log| - 1])
  }

  ghost function Total(open: map<RunId, Span>): int {
    if open == map[] then 0
    else
      var run :| run in open;
      open[run].Length() + Total(open - {run})
  }

  lemma {:induction false} TotalSplit(open: map<RunId, Span>, run: RunId)
    requires run in open
    ensures Total(open) == open[run].Length() + Total(open - {run})
    decreases |open|
  {
    var chosen :| chosen in open && Total(open) == open[chosen].Length() + Total(open - {chosen});
    if chosen != run {
      TotalSplit(open - {chosen}, run);
      TotalSplit(open - {run}, chosen);
      assert open - {chosen} - {run} == open - {run} - {chosen};
    }
  }

  lemma TotalPut(open: map<RunId, Span>, run: RunId, span: Span)
    ensures Total(open[run := span])
         == Total(open) + span.Length() - (if run in open then open[run].Length() else 0)
  {
    TotalSplit(open[run := span], run);
    assert open[run := span] - {run} == open - {run};
    if run in open {
      TotalSplit(open, run);
    } else {
      assert open - {run} == open;
    }
  }

  lemma TallyAppend(acc: Account, a: seq<Event>, b: seq<Event>)
    ensures Tally(acc, a + b) == Tally(Tally(acc, a), b)
  {
    if b == [] {
      assert a + b == a;
    } else {
      TallyAppend(acc, a, b[..|b| - 1]);
      assert (a + b)[..|a + b| - 1] == a + b[..|b| - 1];
    }
  }

  function Counted(s: State): int {
    s.statistics.stateFrames + s.statistics.sequenceGaps
  }

  /** `state_frames + sequence_gaps` is the length of every span, open or closed. */
  ghost predicate SpansAgree(s: State, acc: Account) {
    && (forall run :: run in acc.open <==> Lane(run, 2) in s.latest)
    && (forall run :: run in acc.open ==> acc.open[run].last == s.latest[Lane(run, 2)])
    && Counted(s) == acc.closed + Total(acc.open)
  }

  lemma TouchSpans(c: Config, s: State, run: RunId, acc: Account)
    requires c.Valid() && SpansAgree(s, acc)
    ensures SpansAgree(TouchRun(c, s, run), Tally(acc, TouchEvents(c, s, run)))
  {
    var events := TouchEvents(c, s, run);
    if events != [] {
      var evicted := events[0].run;
      assert events[..|events| - 1] == [];
      if evicted in acc.open {
        TotalSplit(acc.open, evicted);
      }
    }
  }

  lemma DeliverSpans(s: State, s': State, key: Key, acc: Account)
    requires SpansAgree(s, acc) && s'.latest == s.latest[key.lane := key.sequence]
    requires Counted(s') == Counted(s) + (if key.lane.kind != 2 then 0
                                          else if key.lane in s.latest then key.sequence - s.latest[key.lane]
                                          else 1)
    ensures SpansAgree(s', Book(acc, MessageDelivered(key)))
  {
    var run := key.lane.run;
    var span := Span(if run in acc.open then acc.open[run].first else key.sequence, key.sequence);
    TotalPut(acc.open, run, span);
    assert Lane(run, key.lane.kind) == key.lane;
  }

  lemma CommitCounts(c: Config, s: State, key: Key, time: real, bytes: Bytes)
    requires Interpret(c, s, key, time, bytes).Delivered? && (key.lane.kind == 1 || key.lane.kind == 2)
    ensures Counted(Commit(s, Interpret(c, s, key, time, bytes).message))
         == Counted(s) + (if key.lane.kind != 2 then 0
                          else if key.lane in s.latest then key.sequence - s.latest[key.lane]
                          else 1)
    ensures Commit(s, Interpret(c, s, key, time, bytes).message).latest == s.latest[key.lane := key.sequence]
  {
  }

  lemma AbsorbSpans(c: Config, s: State, h: Header, payload: Bytes, acc: Account)
    requires Indexed(s) && KeyOf(h) in s.pending.items && h.part < h.parts && h.time.Finite?
    requires SpansAgree(s, acc) && (h.kind == 1 || h.kind == 2)
    ensures var (s', o) := Absorb(c, s, KeyOf(h), h, h.time.seconds, payload);
            SpansAgree(s', Tally(acc, MessageEvents(o)))
  {
    hide Absorb, Interpret, Close, Commit;
    var key := KeyOf(h);
    var bytes := AbsorbFrames(c, s, key, h, h.time.seconds, payload);
    var (s', o) := Absorb(c, s, key, h, h.time.seconds, payload);
    CloseFrames(s, key);
    if o.Delivered? {
      DeliveredKey(c, Close(s, key), key, h.time.seconds, bytes);
      CommitCounts(c, Close(s, key), key, h.time.seconds, bytes);
      DeliverSpans(s, s', key, acc);
      assert MessageEvents(o) == [MessageDelivered(key)];
      assert MessageEvents(o)[..0] == [];
    }
  }

  lemma OpenSpans(c: Config, s: State, key: Key, e: Entry, acc: Account)
    requires SpansAgree(s, acc)
    ensures SpansAgree(Open(c, s, key, e), Tally(acc, OpenEvents(c, s, key)))
  {
    var events := OpenEvents(c, s, key);
    if events != [] {
      assert events[..|events| - 1] == [];
    }
  }

  lemma FeedSpans(c: Config, s: State, a: Arrival, acc: Account)
    requires c.Valid() && Inv(c, s) && SpansAgree(s, acc)
    ensures SpansAgree(Feed(c, s, a).state, Tally(acc, Feed(c, s, a).events))
  {
    hide Feed, TouchRun, TouchEvents, Open, OpenEvents, Absorb, Inv, Total, Indexed;
    FeedCounts(c, s, a);
    if Admitted(c, a.packet) {
      var h := a.packet.header;
      var t, key, o := Touched(c, s, a), KeyOf(h), Opened(c, s, a);
      Stages(c, s, a);
      var first := Evictions(c, s, a);
      TouchSpans(c, CountDatagram(s), h.run, acc);
      if !IsOld(t, key) {
        OpenSpans(c, t, key, Fresh(h), Tally(acc, first));
        TallyAppend(acc, first, OpenEvents(c, t, key));
        var between := Tally(acc, first + OpenEvents(c, t, key));
        AbsorbSpans(c, o, h, a.packet.payload, between);
        TallyAppend(acc, first + OpenEvents(c, t, key), MessageEvents(Feed(c, s, a).outcome));
      }
    }
  }

  /** `feed` itself adds nothing to the sequence counters. */
  lemma FeedCounts(c: Config, s: State, a: Arrival)
    requires c.Valid() && Inv(c, s)
    ensures if !Admitted(c, a.packet) then
              Feed(c, s, a).events == [] && Counted(Feed(c, s, a).state) == Counted(s)
              && Feed(c, s, a).state.latest == s.latest
            else if IsOld(Touched(c, s, a), KeyOf(a.packet.header)) then
              Counted(Feed(c, s, a).state) == Counted(Touched(c, s, a))
            else
              Counted(Feed(c, s, a).state) == Counted(Absorbed(c, s, a).0)
  {
    hide Feed, Inv, Core, TouchRun, TouchEvents, Open, OpenEvents, Absorb, Observe, ZipFits;
    FeedReported(c, s, a);
    if Admitted(c, a.packet) {
      OpenedHolds(c, s, a);
    }
  }

  /** Over a whole history, frames plus gaps is the total length of all uninterrupted lanes. */
  lemma {:induction false} FramesAndGapsAreSpans(c: Config, reporting: bool, ps: seq<Arrival>)
    requires c.Valid()
    ensures var s := Start(c, reporting);
            SpansAgree(After(c, s, ps), Tally(Account(map[], 0), Log(c, s, ps)))
  {
    var s := Start(c, reporting);
    if ps != [] {
      FramesAndGapsAreSpans(c, reporting, ps[..|ps| - 1]);
      var t := After(c, s, ps[..|ps| - 1]);
      var acc := Tally(Account(map[], 0), Log(c, s, ps[..|ps| - 1]));
      FeedSpans(c, t, ps[|ps| - 1], acc);
      TallyAppend(Account(map[], 0), Log(c, s, ps[..|ps| - 1]), Feed(c, t, ps[|ps| - 1]).events);
    }
  }
}

/** Order of deliveries and the conservation law of the sequence counters. */
module ReassemblyOrder {
  import opened Wrappers
  import opened SceneStream
  import opened Reassembly
  import opened ReassemblyInvariant
  import opened ReassemblyHistory

  /** What the log alone says about a lane: its last delivery unless the run was evicted since. */
  function LastDelivered(log: seq<Event>, lane: Lane, base: Option<nat>): Option<nat> {
    if log == [] then base
    else
      match log[|log| - 1]
      case MessageDelivered(key) =>
        if key.lane == lane then Some(key.sequence) else LastDelivered(log[..|log| - 1], lane, base)
      case RunEvicted(run) => if run == lane.run then None else LastDelivered(log[..|log| - 1], lane, base)
      case PendingEvicted(_) => LastDelivered(log[..|log| - 1], lane, base)
  }

  /** Each delivery is ahead of the last one its lane remembers. */
  ghost predicate Rising(log: seq<Event>, s: State) {
    forall j :: 0 <= j < |log| && log[j].MessageDelivered? ==>
      var before := LastDelivered(log[..j], log[j].key.lane, LatestOf(s, log[j].key.lane));
      before.Some? ==> before.value < log[j].key.sequence
  }

  lemma {:induction false} LastDeliveredAppend(a: seq<Event>, b: seq<Event>, lane: Lane, base: Option<nat>)
    ensures LastDelivered(a + b, lane, base) == LastDelivered(b, lane, LastDelivered(a, lane, base))
  {
    if b == [] {
      assert a + b == a;
    } else {
      LastDeliveredAppend(a, b[..|b| - 1], lane, base);
      assert (a + b)[..|a + b| - 1] == a + b[..|b| - 1];
    }
  }

  lemma {:induction false} NothingDelivered(log: seq<Event>, lane: Lane, base: Option<nat>)
    requires forall e :: e in log ==> !(e.MessageDelivered? && e.key.lane == lane) && e != RunEvicted(lane.run)
    ensures LastDelivered(log, lane, base) == base
  {
    if log != [] {
      NothingDelivered(log[..|log| - 1], lane, base);
    }
  }

  lemma TouchLatest(c: Config, s: State, run: RunId, lane: Lane)
    requires c.Valid() && Inv(c, s)
    ensures LatestOf(TouchRun(c, s, run), lane)
         == LastDelivered(TouchEvents(c, s, run), lane, LatestOf(s, lane))
  {
    TouchForgets(c, s, run, lane.run);
    var events := TouchEvents(c, s, run);
    hide TouchRun;
    if RunEvicted(lane.run) in events {
      assert events == [RunEvicted(lane.run)];
      assert !(lane in TouchRun(c, s, run).latest);
    } else {
      NothingDelivered(events, lane, LatestOf(s, lane));
      assert SameRun(TouchRun(c, s, run), s, lane.run);
      assert Lane(lane.run, lane.kind) == lane;
    }
  }

  /** Evictions followed by at most one delivery, ahead of its lane. */
  lemma StepEvents(quiet: seq<Event>, s: State, t: State, s': State, o: Outcome, key: Key)
    requires forall e :: e in quiet ==> !e.MessageDelivered?
    requires forall lane :: LatestOf(t, lane) == LastDelivered(quiet, lane, LatestOf(s, lane))
    requires !IsOld(t, key)
    requires if o.Delivered? then o.message.key == key && s'.latest == t.latest[key.lane := key.sequence]
             else s'.latest == t.latest
    ensures forall lane :: LatestOf(s', lane) == LastDelivered(quiet + MessageEvents(o), lane, LatestOf(s, lane))
    ensures Rising(quiet + MessageEvents(o), s)
  {
    var log := quiet + MessageEvents(o);
    if o.Delivered? {
      assert log[..|log| - 1] == quiet;
      assert log[|log| - 1] == MessageDelivered(key);
      forall lane ensures LatestOf(s', lane) == LastDelivered(log, lane, LatestOf(s, lane)) {
        assert LatestOf(t, lane) == LastDelivered(quiet, lane, LatestOf(s, lane));
      }
    } else {
      assert log == quiet;
    }
  }

  lemma QuietStep(quiet: seq<Event>, s: State, t: State, s': State)
    requires forall e :: e in quiet ==> !e.MessageDelivered?
    requires forall lane :: LatestOf(t, lane) == LastDelivered(quiet, lane, LatestOf(s, lane))
    requires s'.latest == t.latest
    ensures forall lane :: LatestOf(s', lane) == LastDelivered(quiet, lane, LatestOf(s, lane))
    ensures Rising(quiet, s)
  {
    forall lane ensures LatestOf(s', lane) == LastDelivered(quiet, lane, LatestOf(s, lane)) {
      assert LatestOf(t, lane) == LastDelivered(quiet, lane, LatestOf(s, lane));
    }
  }

  lemma OpeningIsQuiet(c: Config, s: State, t: State, first: seq<Event>, key: Key)
    requires forall e :: e in first ==> e.RunEvicted?
    requires forall lane :: LatestOf(t, lane) == LastDelivered(first, lane, LatestOf(s, lane))
    ensures forall e :: e in first + OpenEvents(c, t, key) ==> !e.MessageDelivered?
    ensures forall lane :: LatestOf(t, lane) == LastDelivered(first + OpenEvents(c, t, key), lane, LatestOf(s, lane))
  {
    forall lane
      ensures LatestOf(t, lane) == LastDelivered(first + OpenEvents(c, t, key), lane, LatestOf(s, lane))
    {
      LastDeliveredAppend(first, OpenEvents(c, t, key), lane, LatestOf(s, lane));
      NothingDelivered(OpenEvents(c, t, key), lane, LatestOf(t, lane));
    }
  }

  lemma AbsorbedLatest(c: Config, s: State, h: Header, payload: Bytes)
    requires Indexed(s) && KeyOf(h) in s.pending.items && h.part < h.parts && h.time.Finite?
    ensures var (s', o) := Absorb(c, s, KeyOf(h), h, h.time.seconds, payload);
            if o.Delivered? then o.message.key == KeyOf(h) && s'.latest == s.latest[KeyOf(h).lane := h.sequence]
            else s'.latest == s.latest
  {
    hide Absorb, Interpret, Close;
    var key := KeyOf(h);
    var bytes := AbsorbFrames(c, s, key, h, h.time.seconds, payload);
    CloseFrames(s, key);
    if Absorb(c, s, key, h, h.time.seconds, payload).1.Delivered? {
      DeliveredKey(c, Close(s, key), key, h.time.seconds, bytes);
    }
  }

  lemma OpenedLatest(c: Config, s: State, a: Arrival)
    requires Admitted(c, a.packet)
    ensures Opened(c, s, a).latest == Touched(c, s, a).latest
    ensures Opened(c, s, a).descriptions == Touched(c, s, a).descriptions
    ensures Opened(c, s, a).reports == Touched(c, s, a).reports
  {
    hide TouchRun;
  }

  lemma TouchStep(c: Config, s: State, a: Arrival)
    requires c.Valid() && Inv(c, s) && Admitted(c, a.packet)
    ensures forall lane :: LatestOf(Touched(c, s, a), lane)
                        == LastDelivered(Evictions(c, s, a), lane, LatestOf(s, lane))
    ensures forall e :: e in Evictions(c, s, a) ==> e.RunEvicted?
  {
    CountDatagramKeeps(c, s);
    hide Inv, TouchRun, TouchEvents;
    forall lane
      ensures LatestOf(Touched(c, s, a), lane) == LastDelivered(Evictions(c, s, a), lane, LatestOf(s, lane))
    {
      TouchLatest(c, CountDatagram(s), a.packet.header.run, lane);
    }
    TouchForgets(c, CountDatagram(s), a.packet.header.run, a.packet.header.run);
  }

  /** One step: the state's `latest` is what its events say, and a delivery is ahead of it. */
  lemma StepLatest(c: Config, s: State, a: Arrival)
    requires c.Valid() && Inv(c, s)
    ensures forall lane :: LatestOf(Feed(c, s, a).state, lane)
                        == LastDelivered(Feed(c, s, a).events, lane, LatestOf(s, lane))
    ensures Rising(Feed(c, s, a).events, s)
  {
    hide Feed, Evictions, Touched, Opened, Absorb, Inv;
    if !Admitted(c, a.packet) {
      Refused(c, s, a);
    } else {
      Stages(c, s, a);
      TouchStep(c, s, a);
      OpenedLatest(c, s, a);
      var h := a.packet.header;
      var t, key, o := Touched(c, s, a), KeyOf(h), Opened(c, s, a);
      if !IsOld(t, key) {
        AbsorbedLatest(c, o, h, a.packet.payload);
        OpeningIsQuiet(c, s, t, Evictions(c, s, a), key);
        StepEvents(Evictions(c, s, a) + OpenEvents(c, t, key), s, t, Feed(c, s, a).state, Feed(c, s, a).outcome, key);
      } else {
        QuietStep(Evictions(c, s, a), s, t, Feed(c, s, a).state);
      }
    }
  }

  // ----- over a whole history

  lemma RisingAppend(a: seq<Event>, b: seq<Event>, s: State, t: State)
    requires Rising(a, s) && Rising(b, t)
    requires forall lane :: LatestOf(t, lane) == LastDelivered(a, lane, LatestOf(s, lane))
    ensures Rising(a + b, s)
  {
    forall j | 0 <= j < |a + b| && (a + b)[j].MessageDelivered?
      ensures var k := (a + b)[j].key;
              var before := LastDelivered((a + b)[..j], k.lane, LatestOf(s, k.lane));
              before.Some? ==> before.value < k.sequence
    {
      var lane := (a + b)[j].key.lane;
      if j < |a| {
        assert (a + b)[..j] == a[..j] && (a + b)[j] == a[j];
      } else {
        assert (a + b)[..j] == a + b[..j - |a|] && (a + b)[j] == b[j - |a|];
        LastDeliveredAppend(a, b[..j - |a|], lane, LatestOf(s, lane));
      }
    }
  }

  /** The log determines `latest`, and its deliveries rise. */
  lemma {:induction false} HistoryRises(c: Config, s: State, ps: seq<Arrival>)
    requires c.Valid() && Inv(c, s)
    ensures forall lane :: LatestOf(After(c, s, ps), lane)
                        == LastDelivered(Log(c, s, ps), lane, LatestOf(s, lane))
    ensures Rising(Log(c, s, ps), s)
  {
    if ps != [] {
      var init := ps[..|ps| - 1];
      var t := After(c, s, init);
      HistoryRises(c, s, init);
      StepLatest(c, t, ps[|ps| - 1]);
      var a, b := Log(c, s, init), Feed(c, t, ps[|ps| - 1]).events;
      assert Log(c, s, ps) == a + b;
      assert After(c, s, ps) == Feed(c, t, ps[|ps| - 1]).state;
      hide Feed, Inv, After, Log;
      RisingAppend(a, b, s, t);
      forall lane
        ensures LatestOf(After(c, s, ps), lane) == LastDelivered(a + b, lane, LatestOf(s, lane))
      {
        LastDeliveredAppend(a, b, lane, LatestOf(s, lane));
      }
    }
  }

  lemma {:induction false} RisingBetween(log: seq<Event>, s: State, i: nat, j: nat)
    requires Rising(log, s) && i < j < |log|
    requires log[i].MessageDelivered? && log[j].MessageDelivered? && log[i].key.lane == log[j].key.lane
    requires RunEvicted(log[i].key.lane.run) !in log[i..j]
    ensures log[i].key.sequence < log[j].key.sequence
  {
    var lane := log[i].key.lane;
    RemembersAtLeast(log, s, i, j);
  }

  /** After a delivery the lane remembers at least that sequence until its run is evicted. */
  lemma {:induction false} RemembersAtLeast(log: seq<Event>, s: State, i: nat, j: nat)
    requires Rising(log, s) && i < j <= |log| && log[i].MessageDelivered?
    requires RunEvicted(log[i].key.lane.run) !in log[i..j]
    ensures var lane := log[i].key.lane;
            var l := LastDelivered(log[..j], lane, LatestOf(s, lane));
            l.Some? && log[i].key.sequence <= l.value
    decreases j
  {
    assert log[..j][..j - 1] == log[..j - 1];
    if i + 1 < j {
      assert log[i..j - 1] == log[i..j][..j - 1 - i];
      assert log[j - 1] == log[i..j][j - 1 - i];
      RemembersAtLeast(log, s, i, j - 1);
    }
  }

  /** Between evictions of a run, each of its lanes delivers strictly increasing sequences. */
  lemma LaneIncreases(c: Config, s: State, ps: seq<Arrival>, i: nat, j: nat)
    requires c.Valid() && Inv(c, s)
    requires var log := Log(c, s, ps);
             && i < j < |log| && log[i].MessageDelivered? && log[j].MessageDelivered?
             && log[i].key.lane == log[j].key.lane && RunEvicted(log[i].key.lane.run) !in log[i..j]
    ensures Log(c, s, ps)[i].key.sequence < Log(c, s, ps)[j].key.sequence
  {
    HistoryRises(c, s, ps);
    RisingBetween(Log(c, s, ps), s, i, j);
  }
}

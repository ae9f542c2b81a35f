/** Each retained report, after any history, against the messages its run delivered. */
module ReassemblyReports {
  import opened SceneStream
  import opened RunReports
  import opened Reassembly
  import opened ReassemblyInvariant
  import opened ReassemblyHistory
  import opened ReassemblyOrder

  /** What the caller saw of `run` in one step, on top of what it saw since the run's last eviction. */
  function Seen(before: seq<Observation>, r: Reaction, run: RunId, at: real): seq<Observation> {
    (if RunEvicted(run) in r.events then [] else before)
    + (if r.outcome.Delivered? && r.outcome.message.key.lane.run == run
       then [Observation(r.outcome.message, DescriptorOf(r.state, run), at)] else [])
  }

  function Observations(c: Config, s: State, ps: seq<Arrival>, run: RunId): seq<Observation>
    requires c.Valid() && Inv(c, s)
  {
    if ps == [] then []
    else Seen(Observations(c, s, ps[..|ps| - 1], run), ReactionAt(c, s, ps, |ps| - 1), run, ps[|ps| - 1].at)
  }

  ghost predicate ReportAccounts(s: State, run: RunId, obs: seq<Observation>) {
    s.reports.Some? && Accounts(ReportOf(s, run), obs)
  }

  lemma AbsorbReports(c: Config, s: State, h: Header, payload: Bytes)
    requires Indexed(s) && KeyOf(h) in s.pending.items && h.part < h.parts && h.time.Finite?
    ensures var (s', o) := Absorb(c, s, KeyOf(h), h, h.time.seconds, payload);
            s'.reports == s.reports && (o.Delivered? ==> o.message.key == KeyOf(h))
  {
    hide Absorb, Interpret, Close;
    var key := KeyOf(h);
    var bytes := AbsorbFrames(c, s, key, h, h.time.seconds, payload);
    CloseFrames(s, key);
    if Absorb(c, s, key, h, h.time.seconds, payload).1.Delivered? {
      DeliveredKey(c, Close(s, key), key, h.time.seconds, bytes);
    }
  }

  /** Reassembly itself drops reports with evicted runs and touches no other. */
  lemma ReassembleReports(c: Config, s: State, a: Arrival)
    requires c.Valid() && Inv(c, s) && Inv(c, CountDatagram(s)) && Indexed(CountDatagram(s))
    ensures var q := Reassemble(c, CountDatagram(s), a.packet);
            if Admitted(c, a.packet) then
              && q.state.reports == Touched(c, s, a).reports
              && (q.outcome.Delivered? ==> q.outcome.message.key == KeyOf(a.packet.header))
            else q.state.reports == s.reports && q.events == [] && !q.outcome.Delivered?
  {
    hide Inv, Core, TouchRun, TouchEvents, Open, OpenEvents, Absorb;
    if Admitted(c, a.packet) {
      OpenedHolds(c, s, a);
      OpenedLatest(c, s, a);
      if !IsOld(Touched(c, s, a), KeyOf(a.packet.header)) {
        AbsorbReports(c, Opened(c, s, a), a.packet.header, a.packet.payload);
      }
    }
  }

  lemma TouchReported(c: Config, s: State, run: RunId, other: RunId, obs: seq<Observation>)
    requires c.Valid() && ReportAccounts(s, other, obs)
    ensures ReportAccounts(TouchRun(c, s, run), other,
                           if RunEvicted(other) in TouchEvents(c, s, run) then [] else obs)
  {
    hide MoveToEnd, Accounts;
    NothingSeen();
  }

  lemma NothingSeen()
    ensures Accounts(EMPTY_REPORT, [])
  {
  }

  lemma ObservedReport(s: State, m: Message, at: real, run: RunId, obs: seq<Observation>)
    requires ReportAccounts(s, run, obs)
    requires ZipFits(ReportOf(s, m.key.lane.run), m, DescriptorOf(s, m.key.lane.run))
    ensures ReportAccounts(Reported(s, m, at), run,
                           if run == m.key.lane.run then obs + [Observation(m, DescriptorOf(s, run), at)] else obs)
  {
    hide Accounts, Observe, ZipFits;
    if run == m.key.lane.run {
      ObserveKeepsAccount(ReportOf(s, run), obs, Observation(m, DescriptorOf(s, run), at));
    }
  }

  /** The events of a step evict a run exactly when its touch does. */
  lemma StepEvictions(c: Config, s: State, a: Arrival, run: RunId)
    requires c.Valid() && Inv(c, s) && Admitted(c, a.packet)
    ensures RunEvicted(run) in Feed(c, s, a).events <==> RunEvicted(run) in Evictions(c, s, a)
  {
    hide Feed, Inv, Absorb, TouchRun, TouchEvents, Open;
    Stages(c, s, a);
  }

  lemma FeedAccounts(c: Config, s: State, a: Arrival, run: RunId, obs: seq<Observation>)
    requires c.Valid() && Inv(c, s) && ReportAccounts(s, run, obs)
    ensures ReportAccounts(Feed(c, s, a).state, run, Seen(obs, Feed(c, s, a), run, a.at))
  {
    hide Feed, Inv, Reassemble, TouchRun, TouchEvents, Accounts, Observe, Indexed, ZipFits;
    FeedReported(c, s, a);
    ReassembleReports(c, s, a);
    var r, q := Feed(c, s, a), Reassemble(c, CountDatagram(s), a.packet);
    if Admitted(c, a.packet) {
      StepEvictions(c, s, a, run);
      TouchReported(c, CountDatagram(s), a.packet.header.run, run, obs);
      var kept := if RunEvicted(run) in r.events then [] else obs;
      assert ReportAccounts(q.state, run, kept);
      if q.outcome.Delivered? {
        ObservedReport(q.state, q.outcome.message, a.at, run, kept);
      }
      assert kept + [] == kept;
    } else {
      assert obs + [] == obs;
    }
  }

  /** Over any history, every report is exactly the account of what its run delivered since its last eviction. */
  lemma {:induction false} ReportsAccountForHistory(c: Config, ps: seq<Arrival>, run: RunId)
    requires c.Valid()
    ensures ReportAccounts(After(c, Start(c, true), ps), run, Observations(c, Start(c, true), ps, run))
  {
    hide Accounts, Inv, Feed;
    if ps == [] {
      NothingSeen();
    } else {
      ReportsAccountForHistory(c, ps[..|ps| - 1], run);
      FeedAccounts(c, After(c, Start(c, true), ps[..|ps| - 1]), ps[|ps| - 1], run,
                   Observations(c, Start(c, true), ps[..|ps| - 1], run));
    }
  }
}

/** Bounds a sender can check that keep other traffic from disturbing a message. */
module ReassemblyTraffic {
  import opened OrderedTables
  import opened SceneStream
  import opened RunReports
  import opened Reassembly
  import opened ReassemblyInvariant
  import opened ReassemblyHistory
  import opened ReassemblyDelivery
  import opened ReassemblyRoundTrip
  import opened ReassemblyReports

  /** The other runs, and the other messages, whose datagrams are admitted. */
  function OtherRuns(c: Config, ps: seq<Arrival>, run: RunId): set<RunId> {
    if ps == [] then {}
    else
      var p := ps[|ps| - 1].packet;
      OtherRuns(c, ps[..|ps| - 1], run) + if Admitted(c, p) && p.header.run != run then {p.header.run} else {}
  }

  function OtherKeys(c: Config, ps: seq<Arrival>, key: Key): set<Key> {
    if ps == [] then {}
    else
      var p := ps[|ps| - 1].packet;
      OtherKeys(c, ps[..|ps| - 1], key) + if Admitted(c, p) && KeyOf(p.header) != key then {KeyOf(p.header)} else {}
  }

  // ----- what stands behind an element of an ordered table

  ghost predicate Trails<T(!new)>(s: seq<T>, x: T, others: set<T>) {
    forall i, j :: 0 <= i < j < |s| && s[i] == x ==> s[j] in others
  }

  lemma TrailsTail<T(!new)>(s: seq<T>, x: T, others: set<T>)
    requires Trails(s, x, others) && s != []
    ensures Trails(s[1..], x, others)
  {
  }

  lemma TrailsAppend<T(!new)>(s: seq<T>, x: T, others: set<T>, y: T)
    requires Trails(s, x, others) && (y in others || x !in s)
    ensures Trails(s + [y], x, others)
  {
  }

  lemma {:induction false} TrailsFilter<T(!new)>(s: seq<T>, keep: T -> bool, x: T, others: set<T>)
    requires Trails(s, x, others)
    ensures Trails(Filter(s, keep), x, others)
  {
    if s != [] {
      var init, last := s[..|s| - 1], s[|s| - 1];
      assert s == init + [last];
      TrailsFilter(init, keep, x, others);
      FilterAppend(init, last, keep);
      hide Filter;
      if keep(last) {
        if x in Filter(init, keep) {
          assert x in init;
          var i :| 0 <= i < |init| && init[i] == x;
          assert s[i] == x && s[|s| - 1] == last;
        }
        TrailsAppend(Filter(init, keep), x, others, last);
      } else {
        assert Filter(init, keep) + [] == Filter(init, keep);
      }
    }
  }

  lemma {:induction false} DistinctWithin<T>(s: seq<T>, all: set<T>)
    requires Distinct(s) && forall x :: x in s ==> x in all
    ensures |s| <= |all|
  {
    if s != [] {
      var init, last := s[..|s| - 1], s[|s| - 1];
      forall x | x in init ensures x in all - {last} {
        assert x in s;
      }
      DistinctWithin(init, all - {last});
    }
  }

  /** An element at the front of a full table has the table's size less one behind it. */
  lemma FrontTrails<T(!new)>(s: seq<T>, x: T, others: set<T>)
    requires Distinct(s) && Trails(s, x, others) && s != [] && s[0] == x
    ensures |s| - 1 <= |others|
  {
    var rest := s[1..];
    forall y | y in rest ensures y in others {
      var j :| 0 <= j < |rest| && rest[j] == y;
      assert s[j + 1] == y;
    }
    DistinctWithin(rest, others);
  }

  // ----- one step: the run

  lemma AdmittedHeader(c: Config, p: Packet)
    requires Admitted(c, p)
    ensures p.Packet? && p.header.part < p.header.parts && p.header.time.Finite?
  {
  }

  lemma MovesBehind(runs: seq<RunId>, run: RunId, mine: RunId, others: set<RunId>)
    requires Distinct(runs) && Trails(runs, mine, others) && (run == mine || run in others)
    ensures Distinct(MoveToEnd(runs, run)) && Trails(MoveToEnd(runs, run), mine, others)
    ensures MoveToEnd(runs, run)[0] == mine ==> |MoveToEnd(runs, run)| - 1 <= |others|
  {
    var kept := Filter(runs, other => other != run);
    FilterDistinct(runs, other => other != run);
    TrailsFilter(runs, other => other != run, mine, others);
    assert run !in kept;
    hide Filter;
    TrailsAppend(kept, mine, others, run);
    var moved := MoveToEnd(runs, run);
    assert moved == kept + [run];
    if moved[0] == mine {
      FrontTrails(moved, mine, others);
    }
  }

  lemma TouchRetains(c: Config, s: State, run: RunId, mine: RunId, others: set<RunId>)
    requires c.Valid() && Distinct(s.runs) && Trails(s.runs, mine, others) && |others| < c.maximumRuns
    requires run == mine || run in others
    ensures RunEvicted(mine) !in TouchEvents(c, s, run) && Trails(TouchRun(c, s, run).runs, mine, others)
  {
    MovesBehind(s.runs, run, mine, others);
    var moved := MoveToEnd(s.runs, run);
    hide MoveToEnd, Trails, Distinct, Filter;
    TrailsTail(moved, mine, others);
  }

  lemma AbsorbKeepsRuns(c: Config, s: State, h: Header, payload: Bytes)
    requires Indexed(s) && KeyOf(h) in s.pending.items && h.part < h.parts && h.time.Finite?
    ensures Absorb(c, s, KeyOf(h), h, h.time.seconds, payload).0.runs == s.runs
  {
    hide Absorb, Interpret, Close;
    var bytes := AbsorbFrames(c, s, KeyOf(h), h, h.time.seconds, payload);
    CloseFrames(s, KeyOf(h));
    if Absorb(c, s, KeyOf(h), h, h.time.seconds, payload).1.Delivered? {
      DeliveredKey(c, Close(s, KeyOf(h)), KeyOf(h), h.time.seconds, bytes);
    }
  }

  lemma OpenKeepsRuns(c: Config, s: State, key: Key, e: Entry)
    ensures Open(c, s, key, e).runs == s.runs
  {
  }

  /** Which runs are kept, and which run goes, is decided by the touch alone. */
  lemma StepRuns(c: Config, s: State, a: Arrival, run: RunId)
    requires c.Valid() && Inv(c, s) && Admitted(c, a.packet)
    ensures Feed(c, s, a).state.runs == Touched(c, s, a).runs
    ensures RunEvicted(run) in Feed(c, s, a).events <==> RunEvicted(run) in Evictions(c, s, a)
  {
    hide Feed, Inv, Absorb, TouchRun, TouchEvents, Open, Core, Indexed;
    var h := a.packet.header;
    Stages(c, s, a);
    OpenedHolds(c, s, a);
    OpenKeepsRuns(c, Touched(c, s, a), KeyOf(h), Fresh(h));
    if !IsOld(Touched(c, s, a), KeyOf(h)) {
      AbsorbKeepsRuns(c, Opened(c, s, a), h, a.packet.payload);
    }
  }

  /** Admitted traffic of this run and these others only. */
  ghost predicate OfRuns(c: Config, p: Packet, mine: RunId, others: set<RunId>) {
    Admitted(c, p) ==> p.header.run == mine || p.header.run in others
  }

  lemma StepRetains(c: Config, s: State, a: Arrival, mine: RunId, others: set<RunId>)
    requires c.Valid() && Inv(c, s) && Trails(s.runs, mine, others) && |others| < c.maximumRuns
    requires OfRuns(c, a.packet, mine, others)
    ensures RunEvicted(mine) !in Feed(c, s, a).events && Trails(Feed(c, s, a).state.runs, mine, others)
  {
    hide Feed, Inv, TouchRun, TouchEvents, Admitted, Trails;
    if Admitted(c, a.packet) {
      AdmittedHeader(c, a.packet);
      DistinctRuns(c, s);
      StepRuns(c, s, a, mine);
      TouchRetains(c, CountDatagram(s), a.packet.header.run, mine, others);
    } else {
      Refused(c, s, a);
    }
  }

  lemma DistinctRuns(c: Config, s: State)
    requires Inv(c, s)
    ensures Distinct(s.runs)
  {
  }

  // ----- one step: the message

  lemma TouchQueue(c: Config, s: State, run: RunId, key: Key, others: set<Key>)
    requires c.Valid() && Trails(s.pending.order, key, others)
    ensures Trails(TouchRun(c, s, run).pending.order, key, others)
  {
    var moved := MoveToEnd(s.runs, run);
    hide MoveToEnd, Trails, Filter;
    if |moved| > c.maximumRuns {
      TrailsFilter(s.pending.order, OfOtherRun(moved[0]), key, others);
    }
  }

  lemma OpenQueue(c: Config, s: State, k: Key, e: Entry, key: Key, others: set<Key>)
    requires c.Valid() && s.pending.Valid() && Trails(s.pending.order, key, others) && |others| < c.maximumPending
    requires k == key || k in others
    ensures PendingEvicted(key) !in OpenEvents(c, s, k) && Trails(Open(c, s, k, e).pending.order, key, others)
  {
    if k !in s.pending.items {
      assert k !in s.pending.order;
      var grown := s.pending.order + [k];
      assert Distinct(grown);
      hide Trails, Distinct;
      TrailsAppend(s.pending.order, key, others, k);
      TrailsTail(grown, key, others);
      if grown[0] == key {
        FrontTrails(grown, key, others);
      }
    }
  }

  lemma CloseQueue(s: State, k: Key, key: Key, others: set<Key>)
    requires Trails(s.pending.order, key, others)
    ensures Trails(Close(s, k).pending.order, key, others)
  {
    hide Trails, Filter;
    TrailsFilter(s.pending.order, Except(k), key, others);
  }

  lemma CommitQueue(s: State, m: Message, key: Key, others: set<Key>)
    requires Trails(s.pending.order, key, others)
    ensures Trails(Commit(s, m).pending.order, key, others)
  {
    hide Trails, Filter;
    TrailsFilter(s.pending.order, NotSupersededBy(m.key), key, others);
  }

  lemma AbsorbQueue(c: Config, s: State, h: Header, payload: Bytes, key: Key, others: set<Key>)
    requires Indexed(s) && KeyOf(h) in s.pending.items && h.part < h.parts && h.time.Finite?
    requires Trails(s.pending.order, key, others)
    ensures Trails(Absorb(c, s, KeyOf(h), h, h.time.seconds, payload).0.pending.order, key, others)
  {
    var k := KeyOf(h);
    hide Trails, Commit, Interpret, Close;
    CloseQueue(s, k, key, others);
    var o := Absorb(c, s, k, h, h.time.seconds, payload).1;
    if o.Delivered? {
      CommitQueue(Close(s, k), o.message, key, others);
    }
  }

  /** Admitted traffic of this message and these others only, none of it later in the message's lane. */
  ghost predicate OfKeys(c: Config, p: Packet, key: Key, others: set<Key>) {
    Admitted(c, p) ==>
      && (KeyOf(p.header) == key || KeyOf(p.header) in others)
      && (KeyOf(p.header).lane == key.lane ==> p.header.sequence <= key.sequence)
  }

  ghost predicate NotOvertaken(log: seq<Event>, key: Key) {
    forall e :: e in log && e.MessageDelivered? && e.key.lane == key.lane ==> e.key.sequence <= key.sequence
  }

  lemma StepHolds(c: Config, s: State, a: Arrival, key: Key, others: set<Key>)
    requires c.Valid() && Inv(c, s) && Trails(s.pending.order, key, others) && |others| < c.maximumPending
    requires OfKeys(c, a.packet, key, others)
    ensures var r := Feed(c, s, a);
            && PendingEvicted(key) !in r.events && NotOvertaken(r.events, key) && Trails(r.state.pending.order, key, others)
  {
    hide Feed, Inv, Absorb, TouchRun, TouchEvents, Open, OpenEvents, Trails, Admitted, Core, Indexed;
    if Admitted(c, a.packet) {
      AdmittedHeader(c, a.packet);
      var h, t := a.packet.header, Touched(c, s, a);
      Stages(c, s, a);
      TouchQueue(c, CountDatagram(s), h.run, key, others);
      OnlyRunsEvicted(c, CountDatagram(s), h.run);
      if !IsOld(t, KeyOf(h)) {
        OpenedHolds(c, s, a);
        PendingTable(c, t);
        OpenQueue(c, t, KeyOf(h), Fresh(h), key, others);
        OnlyPendingEvicted(c, t, KeyOf(h));
        AbsorbQueue(c, Opened(c, s, a), h, a.packet.payload, key, others);
        AbsorbReports(c, Opened(c, s, a), h, a.packet.payload);
      }
    } else {
      Refused(c, s, a);
    }
  }

  lemma PendingTable(c: Config, s: State)
    requires Inv(c, s)
    ensures s.pending.Valid()
  {
  }

  lemma OnlyRunsEvicted(c: Config, s: State, run: RunId)
    ensures forall e :: e in TouchEvents(c, s, run) ==> e.RunEvicted?
  {
  }

  lemma OnlyPendingEvicted(c: Config, s: State, key: Key)
    ensures forall e :: e in OpenEvents(c, s, key) ==> e.PendingEvicted?
  {
  }

  // ----- whole histories

  lemma {:induction false} StaysKnown(c: Config, s: State, ps: seq<Arrival>, mine: RunId, others: set<RunId>)
    requires c.Valid() && Inv(c, s) && Trails(s.runs, mine, others) && |others| < c.maximumRuns
    requires forall i :: 0 <= i < |ps| ==> OfRuns(c, ps[i].packet, mine, others)
    ensures RunEvicted(mine) !in Log(c, s, ps) && Trails(After(c, s, ps).runs, mine, others)
  {
    hide Feed, Inv, Trails, OfRuns;
    if ps != [] {
      var before, a := ps[..|ps| - 1], ps[|ps| - 1];
      StaysKnown(c, s, before, mine, others);
      StepRetains(c, After(c, s, before), a, mine, others);
    }
  }

  lemma {:induction false} StaysQueued(c: Config, s: State, ps: seq<Arrival>, key: Key, others: set<Key>)
    requires c.Valid() && Inv(c, s) && Trails(s.pending.order, key, others) && |others| < c.maximumPending
    requires forall i :: 0 <= i < |ps| ==> OfKeys(c, ps[i].packet, key, others)
    ensures PendingEvicted(key) !in Log(c, s, ps) && NotOvertaken(Log(c, s, ps), key)
    ensures Trails(After(c, s, ps).pending.order, key, others)
  {
    hide Feed, Inv, Trails, OfKeys;
    if ps != [] {
      var before, a := ps[..|ps| - 1], ps[|ps| - 1];
      StaysQueued(c, s, before, key, others);
      StepHolds(c, After(c, s, before), a, key, others);
    }
  }

  ghost predicate NoneLater(c: Config, ps: seq<Arrival>, key: Key) {
    forall i :: 0 <= i < |ps| && Admitted(c, ps[i].packet) && KeyOf(ps[i].packet.header).lane == key.lane ==>
                  ps[i].packet.header.sequence <= key.sequence
  }

  lemma {:induction false} OfOtherRuns(c: Config, ps: seq<Arrival>, run: RunId, i: nat)
    requires i < |ps|
    ensures OfRuns(c, ps[i].packet, run, OtherRuns(c, ps, run))
  {
    hide Admitted;
    if i < |ps| - 1 {
      OfOtherRuns(c, ps[..|ps| - 1], run, i);
    }
  }

  lemma {:induction false} OfOtherKeys(c: Config, ps: seq<Arrival>, key: Key, i: nat)
    requires NoneLater(c, ps, key) && i < |ps|
    ensures OfKeys(c, ps[i].packet, key, OtherKeys(c, ps, key))
  {
    hide Admitted;
    if i < |ps| - 1 {
      OfOtherKeys(c, ps[..|ps| - 1], key, i);
    }
  }

  /** The receiver does not know the run, or knows it as the most recent one. */
  predicate NewOrLatest(s: State, run: RunId) {
    run !in s.runs || s.runs[|s.runs| - 1] == run
  }

  /** A run is never forgotten while there are fewer other runs than the receiver keeps. */
  lemma RunStaysKnown(c: Config, s: State, ps: seq<Arrival>, run: RunId)
    requires c.Valid() && Inv(c, s) && NewOrLatest(s, run) && |OtherRuns(c, ps, run)| < c.maximumRuns
    ensures RunEvicted(run) !in Log(c, s, ps)
  {
    var others := OtherRuns(c, ps, run);
    DistinctRuns(c, s);
    assert Trails(s.runs, run, others);
    hide Feed, Inv, Log, After, OtherRuns, Trails, Admitted, OfRuns;
    forall i | 0 <= i < |ps| ensures OfRuns(c, ps[i].packet, run, others) {
      OfOtherRuns(c, ps, run, i);
    }
    StaysKnown(c, s, ps, run, others);
  }

  /**
   * Fewer other runs than the receiver keeps, fewer other messages than it holds, and none later in the lane:
   * such traffic leaves a fresh message alone, from any state that does not know its run or saw it last.
   */
  lemma QuietTraffic(c: Config, s: State, ps: seq<Arrival>, key: Key, sent: Sent)
    requires c.Valid() && Inv(c, s) && Holding(s, key, sent, {}) && NewOrLatest(s, key.lane.run)
    requires forall i :: 0 <= i < |ps| ==> GenuineFor(c, ps[i].packet, key, sent)
    requires |OtherRuns(c, ps, key.lane.run)| < c.maximumRuns && |OtherKeys(c, ps, key)| < c.maximumPending
    requires NoneLater(c, ps, key)
    ensures Story(c, s, ps, key, sent)
  {
    var others := OtherKeys(c, ps, key);
    NotQueued(c, s, key, sent, others);
    hide Feed, Inv, OfKeys, Log, After, OtherRuns, OtherKeys, NoneLater, Admitted, Holding, GenuineFor, Trails, NewOrLatest;
    RunStaysKnown(c, s, ps, key.lane.run);
    forall i | 0 <= i < |ps| ensures OfKeys(c, ps[i].packet, key, others) {
      OfOtherKeys(c, ps, key, i);
    }
    StaysQueued(c, s, ps, key, others);
  }

  lemma NotQueued(c: Config, s: State, key: Key, sent: Sent, others: set<Key>)
    requires Inv(c, s) && Holding(s, key, sent, {})
    ensures Trails(s.pending.order, key, others)
  {
    assert key !in s.pending.order;
  }

  lemma {:induction false} OtherRunsGrow(c: Config, ps: seq<Arrival>, n: nat, run: RunId)
    requires n <= |ps|
    ensures OtherRuns(c, ps[..n], run) <= OtherRuns(c, ps, run)
  {
    hide Admitted;
    if n < |ps| {
      assert ps[..|ps| - 1][..n] == ps[..n];
      OtherRunsGrow(c, ps[..|ps| - 1], n, run);
    } else {
      assert ps[..n] == ps;
    }
  }

  /** What a sender can check: quiet up to the last missing part, and few enough other runs from first to last. */
  ghost predicate Quiet(c: Config, ps: seq<Arrival>, k: nat, key: Key)
    requires k < |ps|
  {
    && |OtherRuns(c, ps, key.lane.run)| < c.maximumRuns
    && |OtherKeys(c, ps[..k + 1], key)| < c.maximumPending && NoneLater(c, ps[..k + 1], key)
  }

  /** Then the last missing part delivers the sent bytes, once in the whole history, when they decode there. */
  lemma ArrivesInTraffic(c: Config, s: State, ps: seq<Arrival>, k: nat, key: Key, sent: Sent)
    requires c.Valid() && Inv(c, s) && Holding(s, key, sent, {}) && NewOrLatest(s, key.lane.run)
    requires k < |ps| && Quiet(c, ps, k, key) && CompletedBy(c, ps, k, key, sent)
    requires forall i :: 0 <= i <= k ==> GenuineFor(c, ps[i].packet, key, sent)
    ensures ReactionAt(c, s, ps, k).outcome == Interpret(c, After(c, s, ps[..k]), key, sent.time, sent.bytes)
    ensures ReactionAt(c, s, ps, k).outcome.Delivered? ==>
              && Faithful(c, sent, ReactionAt(c, s, ps, k).outcome.message)
              && forall i :: 0 <= i < |ps| ==> (Delivers(c, s, ps, i, key) <==> i == k)
  {
    hide Feed, Inv, Holding, Log, After, Interpret, Faithful, Story, CompletedBy, OtherRuns, OtherKeys, NoneLater, Delivers,
         GenuineFor, NewOrLatest;
    OtherRunsGrow(c, ps, k + 1, key.lane.run);
    SubsetSize(OtherRuns(c, ps[..k + 1], key.lane.run), OtherRuns(c, ps, key.lane.run));
    QuietTraffic(c, s, ps[..k + 1], key, sent);
    RoundTrip(c, s, ps, k, key, sent);
    if ReactionAt(c, s, ps, k).outcome.Delivered? {
      RunStaysKnown(c, s, ps, key.lane.run);
      DeliveredExactlyOnce(c, s, ps, k, key, sent);
    }
  }
}

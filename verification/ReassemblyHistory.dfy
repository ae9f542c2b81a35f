/** Whole histories of datagrams: states reached, what was delivered, forgotten and counted. */
module ReassemblyHistory {
  import opened Wrappers
  import opened SceneStream
  import opened RunReports
  import opened Reassembly
  import opened ReassemblyInvariant

  /** The state after feeding every arrival in turn. */
  function After(c: Config, s: State, ps: seq<Arrival>): (r: State)
    requires c.Valid() && Inv(c, s)
    ensures Inv(c, r)
  {
    if ps == [] then s
    else
      var before := After(c, s, ps[..|ps| - 1]);
      FeedKeepsInv(c, before, ps[|ps| - 1]);
      Feed(c, before, ps[|ps| - 1]).state
  }

  function ReactionAt(c: Config, s: State, ps: seq<Arrival>, i: nat): Reaction
    requires c.Valid() && Inv(c, s) && i < |ps|
  {
    Feed(c, After(c, s, ps[..i]), ps[i])
  }

  /** Every eviction and delivery so far, oldest first. */
  function Log(c: Config, s: State, ps: seq<Arrival>): seq<Event>
    requires c.Valid() && Inv(c, s)
  {
    if ps == [] then []
    else Log(c, s, ps[..|ps| - 1]) + ReactionAt(c, s, ps, |ps| - 1).events
  }

  // ----- the stages of one step, seen from outside

  ghost predicate SameTables(a: State, b: State) {
    a.pending == b.pending && a.runs == b.runs && a.latest == b.latest && a.descriptions == b.descriptions
  }

  function Touched(c: Config, s: State, a: Arrival): State
    requires a.packet.Packet?
  {
    TouchRun(c, CountDatagram(s), a.packet.header.run)
  }

  function Opened(c: Config, s: State, a: Arrival): State
    requires Admitted(c, a.packet)
  {
    Open(c, Touched(c, s, a), KeyOf(a.packet.header), Fresh(a.packet.header))
  }

  function Evictions(c: Config, s: State, a: Arrival): seq<Event>
    requires a.packet.Packet?
  {
    TouchEvents(c, CountDatagram(s), a.packet.header.run)
  }

  /** What absorbing does once the run is touched and the entry open. */
  ghost function Absorbed(c: Config, s: State, a: Arrival): (State, Outcome)
    requires Admitted(c, a.packet)
  {
    var o, h := Opened(c, s, a), a.packet.header;
    if Ready(o, KeyOf(h)) then Absorb(c, o, KeyOf(h), h, h.time.seconds, a.packet.payload) else (o, Repeated)
  }

  ghost predicate Ready(s: State, key: Key) {
    Indexed(s) && key in s.pending.items
  }

  lemma Refused(c: Config, s: State, a: Arrival)
    requires c.Valid() && Inv(c, s) && !Admitted(c, a.packet)
    ensures var r := Feed(c, s, a);
            r.outcome.Rejected? && r.outcome.reason !in {ConflictingFragments, ConflictingDuplicate}
            && r.events == [] && SameTables(r.state, s)
  {
  }

  lemma FeedIsReassemble(c: Config, s: State, a: Arrival)
    requires c.Valid() && Inv(c, s)
    ensures Inv(c, CountDatagram(s)) && Indexed(CountDatagram(s))
    ensures var r, q := Feed(c, s, a), Reassemble(c, CountDatagram(s), a.packet);
            r.outcome == q.outcome && r.events == q.events && SameTables(r.state, q.state)
  {
    hide Feed, Reassemble, Inv, Observe, ZipFits, Indexed;
    FeedReported(c, s, a);
  }

  lemma OpenedHolds(c: Config, s: State, a: Arrival)
    requires c.Valid() && Inv(c, s) && Admitted(c, a.packet)
    ensures Inv(c, Touched(c, s, a)) && a.packet.header.run in Touched(c, s, a).runs
    ensures !IsOld(Touched(c, s, a), KeyOf(a.packet.header)) ==>
              && Core(c, Opened(c, s, a), Some(KeyOf(a.packet.header)))
              && Ready(Opened(c, s, a), KeyOf(a.packet.header))
  {
    hide Core, ReportsAgree, TouchRun, Open;
    CountDatagramKeeps(c, s);
    TouchKeeps(c, CountDatagram(s), a.packet.header.run);
    var t, key := Touched(c, s, a), KeyOf(a.packet.header);
    if !IsOld(t, key) {
      CoreIndexed(c, t, None);
      OpenKeeps(c, t, a.packet.header);
      OpenHolds(c, t, key, Fresh(a.packet.header));
      CoreIndexed(c, Opened(c, s, a), Some(key));
    }
  }

  /** An admitted datagram: touch, then either discard as old or open and absorb. */
  lemma Stages(c: Config, s: State, a: Arrival)
    requires c.Valid() && Inv(c, s) && Admitted(c, a.packet)
    ensures var r := Feed(c, s, a);
            var h := a.packet.header;
            var t := Touched(c, s, a);
            if IsOld(t, KeyOf(h)) then
              r.outcome == Repeated && r.events == Evictions(c, s, a) && SameTables(r.state, t)
            else
              && Ready(Opened(c, s, a), KeyOf(h))
              && r.outcome == Absorbed(c, s, a).1 && SameTables(r.state, Absorbed(c, s, a).0)
              && r.events == Evictions(c, s, a) + OpenEvents(c, t, KeyOf(h)) + MessageEvents(r.outcome)
  {
    hide Inv, Core, TouchRun, TouchEvents, Open, Absorb, Feed, OpenEvents;
    FeedIsReassemble(c, s, a);
    OpenedHolds(c, s, a);
  }

  // ----- touching a run forgets exactly one other run, and says so

  ghost predicate SameRun(a: State, b: State, run: RunId) {
    && (run in a.descriptions <==> run in b.descriptions)
    && (run in a.descriptions ==> a.descriptions[run] == b.descriptions[run])
    && (forall kind :: LatestOf(a, Lane(run, kind)) == LatestOf(b, Lane(run, kind)))
    && (forall k :: k in b.pending.items && k.lane.run == run ==>
                      k in a.pending.items && a.pending.items[k] == b.pending.items[k])
    && (forall k :: k in a.pending.items && k.lane.run == run ==> k in b.pending.items)
  }

  function LatestOf(s: State, lane: Lane): Option<nat> {
    if lane in s.latest then Some(s.latest[lane]) else None
  }

  lemma TouchForgets(c: Config, s: State, run: RunId, other: RunId)
    requires c.Valid() && Inv(c, s)
    ensures RunEvicted(run) !in TouchEvents(c, s, run)
    ensures var t := TouchRun(c, s, run);
            if RunEvicted(other) in TouchEvents(c, s, run) then
              other !in t.descriptions && forall lane :: lane in t.latest ==> lane.run != other
            else SameRun(t, s, other)
    ensures forall e :: e in TouchEvents(c, s, run) ==> e.RunEvicted?
  {
  }
}

/** While a run is kept, all it delivers is consistent with the first description it delivered. */
module ReassemblyConsistency {
  import opened Wrappers
  import opened SceneStream
  import opened RunReports
  import opened Reassembly
  import opened ReassemblyInvariant
  import opened ReassemblyHistory
  import opened ReassemblyOrder
  import opened ReassemblyRoundTrip

  /** A message that this description of its run allows: the same one, or a state with its counts, bound to its names. */
  predicate Consistent(m: Message, d: Descriptor) {
    match m
    case DescriptionMessage(_, _, other) => other == d
    case StateMessage(_, _, f, names) =>
      names == Some(d) && |f.bodies| == |d.bodyNames| && |f.scalarValues| == |d.scalarNames|
  }

  /** Complete bytes are delivered exactly when they decode to something the run's description, if known, allows. */
  lemma InterpretIff(c: Config, s: State, key: Key, time: real, bytes: Bytes)
    ensures var o := Interpret(c, s, key, time, bytes);
            var known := DescriptorOf(s, key.lane.run);
            o.Delivered? <==>
              if key.lane.kind == 1 then
                exists d :: c.decodeDescription(bytes) == Some(d) && (known.Some? ==> known.value == d)
              else
                exists f: StateFrame :: c.decodeState(bytes) == Some(f)
                  && (known.Some? ==> |f.bodies| == |known.value.bodyNames| && |f.scalarValues| == |known.value.scalarNames|)
    ensures var o := Interpret(c, s, key, time, bytes);
            && (o == Rejected(DescriptionChanged) <==>
                  && key.lane.kind == 1 && c.decodeDescription(bytes).Some? && DescriptorOf(s, key.lane.run).Some?
                  && c.decodeDescription(bytes) != DescriptorOf(s, key.lane.run))
            && (o == Rejected(DescriptionCount) <==> key.lane.kind != 1 && c.decodeState(bytes).Some? && !o.Delivered?)
            && (o == Rejected(UndecodableDescription) <==> key.lane.kind == 1 && c.decodeDescription(bytes).None?)
            && (o == Rejected(UndecodableState) <==> key.lane.kind != 1 && c.decodeState(bytes).None?)
    ensures var o := Interpret(c, s, key, time, bytes);
            o.Delivered? && DescriptorOf(s, key.lane.run).Some? ==> Consistent(o.message, DescriptorOf(s, key.lane.run).value)
  {
  }

  lemma AbsorbKeepsDescription(c: Config, s: State, h: Header, payload: Bytes, run: RunId)
    requires Indexed(s) && KeyOf(h) in s.pending.items && h.part < h.parts && h.time.Finite? && run in s.descriptions
    ensures var (after, o) := Absorb(c, s, KeyOf(h), h, h.time.seconds, payload);
            && DescriptorOf(after, run) == DescriptorOf(s, run)
            && (o.Delivered? && o.message.key.lane.run == run ==> Consistent(o.message, s.descriptions[run]))
  {
    hide Absorb, Interpret, Close, Consistent;
    var key := KeyOf(h);
    var bytes := AbsorbFrames(c, s, key, h, h.time.seconds, payload);
    CloseFrames(s, key);
    if Absorb(c, s, key, h, h.time.seconds, payload).1.Delivered? {
      DeliveredKey(c, Close(s, key), key, h.time.seconds, bytes);
      InterpretIff(c, Close(s, key), key, h.time.seconds, bytes);
      CommitDescribes(Close(s, key), Absorb(c, s, key, h, h.time.seconds, payload).1.message, run);
    }
  }

  lemma CommitDescribes(s: State, m: Message, run: RunId)
    ensures DescriptorOf(Commit(s, m), run)
         == if m.DescriptionMessage? && m.key.lane.run == run then Some(m.descriptor) else DescriptorOf(s, run)
    ensures m.DescriptionMessage? && m.key.lane.run in s.descriptions && Consistent(m, s.descriptions[m.key.lane.run]) ==>
              DescriptorOf(Commit(s, m), run) == DescriptorOf(s, run)
  {
  }

  /** A step that does not evict the run keeps its description, and delivers only what it allows. */
  lemma FeedConsistent(c: Config, s: State, a: Arrival, run: RunId)
    requires c.Valid() && Inv(c, s) && run in s.descriptions && RunEvicted(run) !in Feed(c, s, a).events
    ensures var r := Feed(c, s, a);
            && DescriptorOf(r.state, run) == DescriptorOf(s, run)
            && (r.outcome.Delivered? && r.outcome.message.key.lane.run == run ==>
                  Consistent(r.outcome.message, s.descriptions[run]))
  {
    hide Feed, Inv, Absorb, Touched, Opened, Core, Indexed, Evictions, OpenEvents, Consistent;
    if Admitted(c, a.packet) {
      var h := a.packet.header;
      Stages(c, s, a);
      TouchKeepsDescription(c, s, a, run);
      OpenedLatest(c, s, a);
      if !IsOld(Touched(c, s, a), KeyOf(h)) {
        AbsorbKeepsDescription(c, Opened(c, s, a), h, a.packet.payload, run);
      }
    } else {
      Refused(c, s, a);
    }
  }

  lemma TouchKeepsDescription(c: Config, s: State, a: Arrival, run: RunId)
    requires c.Valid() && Inv(c, s) && a.packet.Packet? && run in s.descriptions && RunEvicted(run) !in Evictions(c, s, a)
    ensures DescriptorOf(Touched(c, s, a), run) == DescriptorOf(s, run)
  {
    CountDatagramKeeps(c, s);
    hide Inv, TouchRun, TouchEvents;
    TouchForgets(c, CountDatagram(s), a.packet.header.run, run);
  }

  /** Delivering a description makes it the run's. */
  lemma FeedLearns(c: Config, s: State, a: Arrival)
    requires c.Valid() && Inv(c, s) && Feed(c, s, a).outcome.Delivered? && Feed(c, s, a).outcome.message.DescriptionMessage?
    ensures var m := Feed(c, s, a).outcome.message; DescriptorOf(Feed(c, s, a).state, m.key.lane.run) == Some(m.descriptor)
  {
    hide Feed, Inv, Absorb, Touched, Opened, Core, Indexed, Evictions, OpenEvents;
    if Admitted(c, a.packet) {
      Stages(c, s, a);
      if !IsOld(Touched(c, s, a), KeyOf(a.packet.header)) {
        OpenedHolds(c, s, a);
        AbsorbLearns(c, Opened(c, s, a), a.packet.header, a.packet.payload);
      }
    } else {
      Refused(c, s, a);
    }
  }

  lemma AbsorbLearns(c: Config, s: State, h: Header, payload: Bytes)
    requires Indexed(s) && KeyOf(h) in s.pending.items && h.part < h.parts && h.time.Finite?
    ensures var (after, o) := Absorb(c, s, KeyOf(h), h, h.time.seconds, payload);
            o.Delivered? && o.message.DescriptionMessage? ==>
              DescriptorOf(after, o.message.key.lane.run) == Some(o.message.descriptor)
  {
    hide Absorb, Interpret, Close;
    var bytes := AbsorbFrames(c, s, KeyOf(h), h, h.time.seconds, payload);
    var o := Absorb(c, s, KeyOf(h), h, h.time.seconds, payload).1;
    if o.Delivered? {
      CommitDescribes(Close(s, KeyOf(h)), o.message, o.message.key.lane.run);
    }
  }

  /** From arrival `i` on, up to arrival `j`, the run is not evicted. */
  ghost predicate KeptBetween(c: Config, s: State, ps: seq<Arrival>, i: nat, j: nat, run: RunId)
    requires c.Valid() && Inv(c, s) && j < |ps|
  {
    forall n :: i < n <= j ==> RunEvicted(run) !in ReactionAt(c, s, ps, n).events
  }

  lemma {:induction false} DescriptionStays(c: Config, s: State, ps: seq<Arrival>, i: nat, j: nat, run: RunId, d: Descriptor)
    requires c.Valid() && Inv(c, s) && i < j < |ps| && KeptBetween(c, s, ps, i, j, run)
    requires DescriptorOf(After(c, s, ps[..i + 1]), run) == Some(d)
    ensures DescriptorOf(After(c, s, ps[..j]), run) == Some(d)
    decreases j
  {
    hide Feed, Inv, After;
    if i + 1 < j {
      DescriptionStays(c, s, ps, i, j - 1, run, d);
      LogAt(c, s, ps, j - 1);
      FeedConsistent(c, After(c, s, ps[..j - 1]), ps[j - 1], run);
    }
  }

  /** Once a run's description is delivered, every later delivery of the run is consistent with it until the run is evicted. */
  lemma RunIsConsistent(c: Config, s: State, ps: seq<Arrival>, i: nat, j: nat)
    requires c.Valid() && Inv(c, s) && i < j < |ps|
    requires var o := ReactionAt(c, s, ps, i).outcome; o.Delivered? && o.message.DescriptionMessage?
    requires var o, p := ReactionAt(c, s, ps, i).outcome, ReactionAt(c, s, ps, j).outcome;
             p.Delivered? && p.message.key.lane.run == o.message.key.lane.run
    requires KeptBetween(c, s, ps, i, j, ReactionAt(c, s, ps, i).outcome.message.key.lane.run)
    ensures Consistent(ReactionAt(c, s, ps, j).outcome.message, ReactionAt(c, s, ps, i).outcome.message.descriptor)
  {
    hide Feed, Inv, After, Consistent;
    var m := ReactionAt(c, s, ps, i).outcome.message;
    FeedLearns(c, After(c, s, ps[..i]), ps[i]);
    LogAt(c, s, ps, i);
    DescriptionStays(c, s, ps, i, j, m.key.lane.run, m.descriptor);
    FeedConsistent(c, After(c, s, ps[..j]), ps[j], m.key.lane.run);
  }
}

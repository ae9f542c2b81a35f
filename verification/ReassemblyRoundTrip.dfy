/** A message whose fragments all arrive is delivered once, when the last missing one does. */
module ReassemblyRoundTrip {
  import opened Wrappers
  import opened SceneStream
  import opened RunReports
  import opened Reassembly
  import opened ReassemblyInvariant
  import opened ReassemblyHistory
  import opened ReassemblyOrder
  import opened ReassemblyDelivery

  /** The part numbers of `key` among the admitted datagrams. */
  function Collected(c: Config, ps: seq<Arrival>, key: Key): set<nat> {
    if ps == [] then {}
    else Collected(c, ps[..|ps| - 1], key) + PartsIn(c, ps[|ps| - 1].packet, key)
  }

  function PartsIn(c: Config, p: Packet, key: Key): set<nat> {
    if Admitted(c, p) && KeyOf(p.header) == key then {p.header.part} else {}
  }

  /** The other traffic neither evicts the run or the message, nor overtakes it in its lane. */
  ghost predicate Undisturbed(log: seq<Event>, key: Key) {
    && RunEvicted(key.lane.run) !in log && PendingEvicted(key) !in log
    && forall e :: e in log && e.MessageDelivered? && e.key.lane == key.lane ==> e.key.sequence <= key.sequence
  }

  /** Whoever sends datagrams under `key` sends fragments of `sent`. */
  ghost predicate GenuineFor(c: Config, p: Packet, key: Key, sent: Sent) {
    Admitted(c, p) && KeyOf(p.header) == key ==>
      p.header.part < PartCount(|sent.bytes|) && p == Fragment(key, sent, p.header.part)
  }

  /** The message is not yet delivered and exactly these parts of it are held. */
  ghost predicate Holding(s: State, key: Key, sent: Sent, parts: set<nat>) {
    && !IsOld(s, key)
    && (key in s.pending.items <==> parts != {})
    && (parts != {} ==> CutFrom(s.pending.items[key], sent) && s.pending.items[key].chunks.Keys == parts)
  }

  ghost predicate SameEntry(t: State, s: State, key: Key) {
    && (key in t.pending.items <==> key in s.pending.items)
    && (key in t.pending.items ==> t.pending.items[key] == s.pending.items[key])
  }

  // ----- what one step does to another key

  lemma CloseKept(s: State, other: Key, key: Key)
    requires key != other
    ensures SameEntry(Close(s, other), s, key)
  {
  }

  lemma StoreKept(s: State, other: Key, chunks: map<nat, Bytes>, key: Key)
    requires key != other && other in s.pending.items
    ensures SameEntry(Store(s, other, chunks), s, key)
  {
  }

  lemma CommitKept(s: State, m: Message, key: Key)
    requires key != m.key && (m.key.lane == key.lane ==> m.key.sequence <= key.sequence)
    ensures SameEntry(Commit(Close(s, m.key), m), s, key)
  {
  }

  lemma RepeatKept(s: State, key: Key)
    ensures SameEntry(CountRepeated(s), s, key)
  {
  }

  lemma AbsorbOther(c: Config, s: State, h: Header, payload: Bytes, key: Key)
    requires Indexed(s) && KeyOf(h) in s.pending.items && h.part < h.parts && h.time.Finite? && KeyOf(h) != key
    requires var o := Absorb(c, s, KeyOf(h), h, h.time.seconds, payload).1;
             o.Delivered? && KeyOf(h).lane == key.lane ==> h.sequence <= key.sequence
    ensures var (after, o) := Absorb(c, s, KeyOf(h), h, h.time.seconds, payload);
            && SameEntry(after, s, key) && (IsOld(after, key) ==> IsOld(s, key))
            && (o.Delivered? ==> o.message.key == KeyOf(h))
  {
    var other := KeyOf(h);
    hide Close, Store, Commit, SameEntry;
    AbsorbedLatest(c, s, h, payload);
    CloseKept(s, other, key);
    StoreKept(s, other, s.pending.items[other].chunks[h.part := payload], key);
    RepeatKept(s, key);
    var o := Absorb(c, s, other, h, h.time.seconds, payload).1;
    if o.Delivered? {
      CommitKept(s, o.message, key);
    }
  }

  // ----- one step while the message is incomplete

  lemma TouchHolds(c: Config, s: State, a: Arrival, key: Key, sent: Sent, parts: set<nat>)
    requires c.Valid() && Inv(c, s) && Holding(s, key, sent, parts) && a.packet.Packet?
    requires RunEvicted(key.lane.run) !in Evictions(c, s, a)
    ensures Holding(Touched(c, s, a), key, sent, parts)
    ensures DescriptorOf(Touched(c, s, a), key.lane.run) == DescriptorOf(s, key.lane.run)
  {
    CountDatagramKeeps(c, s);
    TouchForgets(c, CountDatagram(s), a.packet.header.run, key.lane.run);
    hide TouchRun, TouchEvents, Inv;
    var t := Touched(c, s, a);
    assert SameRun(t, CountDatagram(s), key.lane.run);
    assert LatestOf(t, Lane(key.lane.run, key.lane.kind)) == LatestOf(s, key.lane);
    assert Lane(key.lane.run, key.lane.kind) == key.lane;
  }

  /** Opening another key evicts `key` only if the log says so. */
  lemma OpenOther(c: Config, s: State, h: Header, key: Key, sent: Sent, parts: set<nat>)
    requires s.pending.Valid() && Holding(s, key, sent, parts) && h.time.Finite? && KeyOf(h) != key
    requires PendingEvicted(key) !in OpenEvents(c, s, KeyOf(h))
    ensures Holding(Open(c, s, KeyOf(h), Fresh(h)), key, sent, parts)
  {
    hide CutFrom;
  }

  lemma OpenOwn(c: Config, s: State, h: Header, sent: Sent, parts: set<nat>)
    requires c.Valid() && Indexed(s) && Holding(s, KeyOf(h), sent, parts) && h.time.Finite?
    ensures var o := Open(c, s, KeyOf(h), Fresh(h));
            && o.latest == s.latest && o.descriptions == s.descriptions
            && KeyOf(h) in o.pending.items
            && o.pending.items[KeyOf(h)] == if parts == {} then Fresh(h) else s.pending.items[KeyOf(h)]
  {
    hide CutFrom;
    OpenHolds(c, s, KeyOf(h), Fresh(h));
  }

  lemma OtherStep(c: Config, s: State, a: Arrival, key: Key, sent: Sent, parts: set<nat>)
    requires c.Valid() && Inv(c, s) && Holding(s, key, sent, parts)
    requires Undisturbed(Feed(c, s, a).events, key)
    requires !Admitted(c, a.packet) || KeyOf(a.packet.header) != key
    ensures Holding(Feed(c, s, a).state, key, sent, parts)
    ensures Feed(c, s, a).outcome.Delivered? ==> Feed(c, s, a).outcome.message.key != key
  {
    hide Feed, Inv, Absorb, TouchRun, TouchEvents, Open, OpenEvents, CutFrom;
    if !Admitted(c, a.packet) {
      Refused(c, s, a);
    } else {
      var h := a.packet.header;
      Stages(c, s, a);
      TouchHolds(c, s, a, key, sent, parts);
      if !IsOld(Touched(c, s, a), KeyOf(h)) {
        OpenedHolds(c, s, a);
        InvCore(c, Touched(c, s, a));
        OpenOther(c, Touched(c, s, a), h, key, sent, parts);
        var o := Absorb(c, Opened(c, s, a), KeyOf(h), h, h.time.seconds, a.packet.payload).1;
        if o.Delivered? {
          AbsorbedLatest(c, Opened(c, s, a), h, a.packet.payload);
          assert MessageDelivered(o.message.key) in Feed(c, s, a).events;
        }
        AbsorbOther(c, Opened(c, s, a), h, a.packet.payload, key);
      }
    }
  }

  lemma InvCore(c: Config, s: State)
    requires Inv(c, s)
    ensures Core(c, s, None)
  {
  }

  lemma OwnStep(c: Config, s: State, a: Arrival, key: Key, sent: Sent, parts: set<nat>)
    requires c.Valid() && Inv(c, s) && Holding(s, key, sent, parts)
    requires parts <= Range(PartCount(|sent.bytes|)) && parts != Range(PartCount(|sent.bytes|))
    requires Undisturbed(Feed(c, s, a).events, key)
    requires Admitted(c, a.packet) && KeyOf(a.packet.header) == key && GenuineFor(c, a.packet, key, sent)
    ensures var r := Feed(c, s, a);
            var got := parts + {a.packet.header.part};
            if got != Range(PartCount(|sent.bytes|)) then Holding(r.state, key, sent, got) && !r.outcome.Delivered?
            else r.outcome == Interpret(c, s, key, sent.time, sent.bytes)
  {
    hide Feed, Inv, Absorb, TouchRun, TouchEvents, Open, OpenEvents, Interpret, Store, Close, Commit, CutFrom,
         PartCount, Slice, Core, Indexed, Range;
    var h := a.packet.header;
    Stages(c, s, a);
    TouchHolds(c, s, a, key, sent, parts);
    OpenedHolds(c, s, a);
    InvCore(c, Touched(c, s, a));
    CoreIndexed(c, Touched(c, s, a), None);
    OpenOwn(c, Touched(c, s, a), h, sent, parts);
    var o := Opened(c, s, a);
    FreshCut(key, sent, h.part);
    AbsorbGenuine(c, o, key, sent, h.part);
    SameInterpretation(c, s, o, key, sent.time, sent.bytes);
    PartsLeft(parts, h.part, PartCount(|sent.bytes|));
    StoreHolds(o, key, sent, h.part);
  }

  lemma FreshCut(key: Key, sent: Sent, part: nat)
    requires part < PartCount(|sent.bytes|)
    ensures CutFrom(Fresh(Fragment(key, sent, part).header), sent)
  {
  }

  lemma PartsLeft(parts: set<nat>, part: nat, n: nat)
    requires parts <= Range(n) && parts != Range(n) && part < n
    ensures part in parts ==> parts + {part} == parts
    ensures part !in parts ==> (|parts| + 1 < n <==> parts + {part} != Range(n))
  {
    SubsetSize(parts + {part}, Range(n));
    if part in parts {
      assert parts + {part} == parts;
    } else {
      assert |parts + {part}| == |parts| + 1;
    }
  }

  lemma StoreHolds(s: State, key: Key, sent: Sent, part: nat)
    requires key in s.pending.items && CutFrom(s.pending.items[key], sent) && part < PartCount(|sent.bytes|)
    requires !IsOld(s, key)
    ensures var chunks := s.pending.items[key].chunks;
            && Holding(Store(s, key, chunks[part := Slice(sent.bytes, part)]), key, sent, chunks.Keys + {part})
            && (chunks != map[] ==> Holding(CountRepeated(s), key, sent, chunks.Keys))
  {
    StoreCut(s.pending.items[key], sent, part);
    hide PartCount, Slice;
  }

  // ----- whole histories

  lemma {:induction false} LogPrefix(c: Config, s: State, ps: seq<Arrival>, i: nat)
    requires c.Valid() && Inv(c, s) && i <= |ps|
    ensures Log(c, s, ps[..i]) <= Log(c, s, ps)
  {
    if i < |ps| {
      LogPrefix(c, s, ps[..|ps| - 1], i);
      assert ps[..|ps| - 1][..i] == ps[..i];
      hide Feed, Inv;
    } else {
      assert ps[..i] == ps;
    }
  }

  lemma LogAt(c: Config, s: State, ps: seq<Arrival>, i: nat)
    requires c.Valid() && Inv(c, s) && i < |ps|
    ensures Log(c, s, ps[..i + 1]) == Log(c, s, ps[..i]) + ReactionAt(c, s, ps, i).events
    ensures After(c, s, ps[..i + 1]) == ReactionAt(c, s, ps, i).state
  {
    assert ps[..i + 1][..i] == ps[..i];
    hide Feed, Inv;
  }

  /** A step that delivers ends its events with that delivery. */
  lemma DeliveryLogged(c: Config, s: State, a: Arrival)
    requires c.Valid() && Inv(c, s) && Feed(c, s, a).outcome.Delivered?
    ensures var e := Feed(c, s, a).events;
            e != [] && e[|e| - 1] == MessageDelivered(Feed(c, s, a).outcome.message.key)
  {
    hide Feed, Inv, Absorb, TouchRun, TouchEvents, Open, OpenEvents;
    if Admitted(c, a.packet) {
      Stages(c, s, a);
    } else {
      Refused(c, s, a);
    }
  }

  ghost predicate Delivers(c: Config, s: State, ps: seq<Arrival>, i: nat, key: Key)
    requires c.Valid() && Inv(c, s) && i < |ps|
  {
    var o := ReactionAt(c, s, ps, i).outcome;
    o.Delivered? && o.message.key == key
  }

  /** No key is delivered twice unless its run was evicted in between. */
  lemma NoKeyTwice(c: Config, s: State, ps: seq<Arrival>, i: nat, j: nat, key: Key)
    requires c.Valid() && Inv(c, s) && i < j < |ps| && Delivers(c, s, ps, i, key) && Delivers(c, s, ps, j, key)
    ensures |Log(c, s, ps[..i + 1])| <= |Log(c, s, ps[..j + 1])|
    ensures RunEvicted(key.lane.run) in Log(c, s, ps[..j + 1])[|Log(c, s, ps[..i + 1])|..]
  {
    hide Feed, Inv, Log, After;
    DeliveryLogged(c, After(c, s, ps[..i]), ps[i]);
    DeliveryLogged(c, After(c, s, ps[..j]), ps[j]);
    LogAt(c, s, ps, i);
    LogAt(c, s, ps, j);
    LogPrefix(c, s, ps[..j], i + 1);
    assert ps[..j][..i + 1] == ps[..i + 1];
    var log := Log(c, s, ps[..j + 1]);
    var p, q := |Log(c, s, ps[..i + 1])| - 1, |log| - 1;
    assert log[p] == MessageDelivered(key) && log[q] == MessageDelivered(key);
    if RunEvicted(key.lane.run) !in log[p + 1..] {
      assert log[p..q] == [log[p]] + log[p + 1..q];
      assert log[p + 1..q] == log[p + 1..][..q - p - 1];
      LaneIncreases(c, s, ps[..j + 1], p, q);
    }
  }

  /** A fresh message, genuine fragments under its key, and other traffic that leaves it alone. */
  ghost predicate Story(c: Config, s: State, ps: seq<Arrival>, key: Key, sent: Sent)
    requires c.Valid() && Inv(c, s)
  {
    && Holding(s, key, sent, {}) && Undisturbed(Log(c, s, ps), key)
    && forall i :: 0 <= i < |ps| ==> GenuineFor(c, ps[i].packet, key, sent)
  }

  ghost predicate NeverDelivered(c: Config, s: State, ps: seq<Arrival>, key: Key)
    requires c.Valid() && Inv(c, s)
  {
    forall i :: 0 <= i < |ps| ==> !Delivers(c, s, ps, i, key)
  }

  lemma StoryPrefix(c: Config, s: State, ps: seq<Arrival>, key: Key, sent: Sent, k: nat)
    requires c.Valid() && Inv(c, s) && Story(c, s, ps, key, sent) && k < |ps|
    ensures Story(c, s, ps[..k], key, sent)
    ensures Undisturbed(ReactionAt(c, s, ps, k).events, key) && GenuineFor(c, ps[k].packet, key, sent)
  {
    hide Feed, Inv, GenuineFor, Holding, After, Log, Undisturbed;
    LogPrefix(c, s, ps, k + 1);
    LogAt(c, s, ps, k);
    UndisturbedParts(Log(c, s, ps[..k]), ReactionAt(c, s, ps, k).events, Log(c, s, ps), key);
  }

  lemma UndisturbedParts(a: seq<Event>, b: seq<Event>, log: seq<Event>, key: Key)
    requires a + b <= log && Undisturbed(log, key)
    ensures Undisturbed(a, key) && Undisturbed(b, key)
  {
    assert forall e :: e in a + b ==> e in log;
    assert forall e :: e in a ==> e in a + b;
    assert forall e :: e in b ==> e in a + b;
  }

  lemma DeliversPrefix(c: Config, s: State, ps: seq<Arrival>, k: nat, i: nat, key: Key)
    requires c.Valid() && Inv(c, s) && i < k <= |ps|
    ensures Delivers(c, s, ps[..k], i, key) <==> Delivers(c, s, ps, i, key)
  {
    assert ps[..k][..i] == ps[..i];
    hide Feed, Inv, After;
  }

  lemma {:induction false} CollectedBound(c: Config, s: State, ps: seq<Arrival>, key: Key, sent: Sent)
    requires c.Valid() && Inv(c, s) && Story(c, s, ps, key, sent)
    ensures Collected(c, ps, key) <= Range(PartCount(|sent.bytes|))
  {
    hide Inv, Log;
    if ps != [] {
      StoryPrefix(c, s, ps, key, sent, |ps| - 1);
      CollectedBound(c, s, ps[..|ps| - 1], key, sent);
    }
  }

  /** Until every part has arrived, exactly the parts that arrived are held. */
  lemma {:induction false} StillMissing(c: Config, s: State, ps: seq<Arrival>, key: Key, sent: Sent)
    requires c.Valid() && Inv(c, s) && Story(c, s, ps, key, sent)
    requires Collected(c, ps, key) != Range(PartCount(|sent.bytes|))
    ensures Holding(After(c, s, ps), key, sent, Collected(c, ps, key))
    ensures NeverDelivered(c, s, ps, key)
  {
    hide Feed, Inv, Log, PartsIn, Range, GenuineFor, Undisturbed, CutFrom, PartCount;
    if ps != [] {
      hide After, Holding, Story, NeverDelivered, Delivers;
      var init, n := ps[..|ps| - 1], |ps| - 1;
      CollectedBound(c, s, ps, key, sent);
      StoryPrefix(c, s, ps, key, sent, n);
      CollectedBound(c, s, init, key, sent);
      LogAt(c, s, ps, n);
      assert ps[..|ps|] == ps;
      assert Collected(c, ps, key) == Collected(c, init, key) + PartsIn(c, ps[n].packet, key);
      StillMissing(c, s, init, key, sent);
      MissingStep(c, After(c, s, init), ps[n], key, sent, Collected(c, init, key));
      NeverStep(c, s, ps, key);
    }
  }

  lemma NeverStep(c: Config, s: State, ps: seq<Arrival>, key: Key)
    requires c.Valid() && Inv(c, s) && ps != [] && NeverDelivered(c, s, ps[..|ps| - 1], key)
    requires var o := ReactionAt(c, s, ps, |ps| - 1).outcome; !(o.Delivered? && o.message.key == key)
    ensures NeverDelivered(c, s, ps, key)
  {
    hide Feed, Inv, After;
    forall i | 0 <= i < |ps| ensures !Delivers(c, s, ps, i, key) {
      if i < |ps| - 1 {
        DeliversPrefix(c, s, ps, |ps| - 1, i, key);
      }
    }
  }

  lemma MissingStep(c: Config, s: State, a: Arrival, key: Key, sent: Sent, parts: set<nat>)
    requires c.Valid() && Inv(c, s) && Holding(s, key, sent, parts) && Undisturbed(Feed(c, s, a).events, key)
    requires GenuineFor(c, a.packet, key, sent) && parts <= Range(PartCount(|sent.bytes|))
    requires parts + PartsIn(c, a.packet, key) != Range(PartCount(|sent.bytes|))
    ensures Holding(Feed(c, s, a).state, key, sent, parts + PartsIn(c, a.packet, key))
    ensures !(Feed(c, s, a).outcome.Delivered? && Feed(c, s, a).outcome.message.key == key)
  {
    hide Feed, Inv, Holding;
    if Admitted(c, a.packet) && KeyOf(a.packet.header) == key {
      assert parts != Range(PartCount(|sent.bytes|));
      OwnStep(c, s, a, key, sent, parts);
    } else {
      OtherStep(c, s, a, key, sent, parts);
      assert parts + {} == parts;
    }
  }

  /** Arrival `k` is the first at which every part of the message has arrived. */
  ghost predicate CompletedBy(c: Config, ps: seq<Arrival>, k: nat, key: Key, sent: Sent)
    requires k < |ps|
  {
    var all := Range(PartCount(|sent.bytes|));
    Collected(c, ps[..k], key) != all && Collected(c, ps[..k + 1], key) == all
  }

  /** What happens at arrival `k` depends on the arrivals up to it alone. */
  lemma UpTo(c: Config, s: State, ps: seq<Arrival>, k: nat)
    requires c.Valid() && Inv(c, s) && k < |ps|
    ensures ps[..k + 1][..k] == ps[..k] && ps[..k + 1][k] == ps[k]
    ensures ReactionAt(c, s, ps[..k + 1], k) == ReactionAt(c, s, ps, k)
  {
    assert ps[..k + 1][..k] == ps[..k];
    hide Feed, Inv, After;
  }

  /**
   * Reassembly round trip: fragments in any order, with any duplicates and other traffic; at the last
   * missing one the outcome is the interpretation of the original bytes, and never before.
   */
  lemma RoundTrip(c: Config, s: State, ps: seq<Arrival>, k: nat, key: Key, sent: Sent)
    requires c.Valid() && Inv(c, s) && k < |ps| && Story(c, s, ps[..k + 1], key, sent) && CompletedBy(c, ps, k, key, sent)
    ensures ReactionAt(c, s, ps, k).outcome == Interpret(c, After(c, s, ps[..k]), key, sent.time, sent.bytes)
    ensures forall i :: 0 <= i < k ==> !Delivers(c, s, ps, i, key)
  {
    var before := ps[..k];
    UpTo(c, s, ps, k);
    StoryPrefix(c, s, ps[..k + 1], key, sent, k);
    hide Feed, Inv, Holding, After, Log, Range, Story, Undisturbed, Delivers, Interpret, GenuineFor, Admitted;
    StillMissing(c, s, before, key, sent);
    CollectedBound(c, s, before, key, sent);
    assert Collected(c, ps[..k + 1], key) == Collected(c, before, key) + PartsIn(c, ps[k].packet, key);
    OwnStep(c, After(c, s, before), ps[k], key, sent, Collected(c, before, key));
    forall i | 0 <= i < k ensures !Delivers(c, s, ps, i, key) {
      DeliversPrefix(c, s, ps, k, i, key);
    }
  }

  /**
   * If the bytes are decodable there, that is the only delivery in the whole history, in whatever way it goes
   * on, later messages of the lane included, while the receiver keeps the run.
   */
  lemma DeliveredExactlyOnce(c: Config, s: State, ps: seq<Arrival>, k: nat, key: Key, sent: Sent)
    requires c.Valid() && Inv(c, s) && k < |ps| && Story(c, s, ps[..k + 1], key, sent) && CompletedBy(c, ps, k, key, sent)
    requires RunEvicted(key.lane.run) !in Log(c, s, ps)
    requires Interpret(c, After(c, s, ps[..k]), key, sent.time, sent.bytes).Delivered?
    ensures forall i :: 0 <= i < |ps| ==> (Delivers(c, s, ps, i, key) <==> i == k)
    ensures var o := ReactionAt(c, s, ps, k).outcome;
            o.Delivered? && o.message.key == key && Faithful(c, sent, o.message)
  {
    hide Feed, Inv, Holding, Log, After, Interpret, Faithful, Story, CompletedBy;
    RoundTrip(c, s, ps, k, key, sent);
    InterpretIsFaithful(c, After(c, s, ps[..k]), key, sent);
    forall i | k < i < |ps| ensures !Delivers(c, s, ps, i, key) {
      NotAgain(c, s, ps, k, i, key);
    }
  }

  lemma NotAgain(c: Config, s: State, ps: seq<Arrival>, k: nat, i: nat, key: Key)
    requires c.Valid() && Inv(c, s) && k < i < |ps| && Delivers(c, s, ps, k, key)
    requires RunEvicted(key.lane.run) !in Log(c, s, ps)
    ensures !Delivers(c, s, ps, i, key)
  {
    hide Feed, Inv, Log, After, Delivers;
    LogPrefix(c, s, ps, i + 1);
    assert RunEvicted(key.lane.run) !in Log(c, s, ps[..i + 1]);
    if Delivers(c, s, ps, i, key) {
      NoKeyTwice(c, s, ps, k, i, key);
    }
  }
}

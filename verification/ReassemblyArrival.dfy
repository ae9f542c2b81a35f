/** From what the senders sent alone: a decodable message arrives, once, with its own bytes. */
module ReassemblyArrival {
  import opened Wrappers
  import opened SceneStream
  import opened RunReports
  import opened Reassembly
  import opened ReassemblyInvariant
  import opened ReassemblyAdmission
  import opened ReassemblyHistory
  import opened ReassemblyOrder
  import opened ReassemblyDelivery
  import opened ReassemblyRoundTrip
  import opened ReassemblyTraffic

  predicate Decodable(c: Config, key: Key, sent: Sent) {
    if key.lane.kind == 1 then c.decodeDescription(sent.bytes).Some? else c.decodeState(sent.bytes).Some?
  }

  /** Bytes that decode, as this kind of message, to something that fits the description. */
  predicate Fits(c: Config, d: Option<Descriptor>, kind: nat, bytes: Bytes) {
    if kind == 1 then c.decodeDescription(bytes).Some? && d.Some? ==> c.decodeDescription(bytes) == d
    else c.decodeState(bytes).Some? ==> CountsAgree(d, c.decodeState(bytes).value)
  }

  /** The run's descriptions that decode are one description, and its states that decode fit it. */
  ghost predicate Coherent(c: Config, sender: Sender, run: RunId) {
    forall k: Key, j: Key :: k.lane == Lane(run, 1) && j.lane.run == run && sender(k).Some? && sender(j).Some? ==>
      Fits(c, c.decodeDescription(sender(k).value.bytes), j.lane.kind, sender(j).value.bytes)
  }

  /** What the receiver takes for the run's description is one that was sent. */
  ghost predicate Described(c: Config, sender: Sender, s: State, run: RunId) {
    run in s.descriptions ==>
      exists k: Key :: k.lane == Lane(run, 1) && sender(k).Some?
                       && c.decodeDescription(sender(k).value.bytes) == Some(s.descriptions[run])
  }

  // ----- where descriptions come from

  lemma AbsorbDescribes(c: Config, s: State, h: Header, payload: Bytes, run: RunId)
    requires Indexed(s) && KeyOf(h) in s.pending.items && h.part < h.parts && h.time.Finite?
    ensures var (after, o) := Absorb(c, s, KeyOf(h), h, h.time.seconds, payload);
            || DescriptorOf(after, run) == DescriptorOf(s, run)
            || DescribedBy(after, o, run)
  {
    hide Absorb, Interpret, Close;
    var key := KeyOf(h);
    var bytes := AbsorbFrames(c, s, key, h, h.time.seconds, payload);
    CloseFrames(s, key);
    if Absorb(c, s, key, h, h.time.seconds, payload).1.Delivered? {
      DeliveredKey(c, Close(s, key), key, h.time.seconds, bytes);
    }
  }

  /** The run's description is that of the message just delivered. */
  ghost predicate DescribedBy(s: State, o: Outcome, run: RunId) {
    && o.Delivered? && o.message.DescriptionMessage? && o.message.key.lane == Lane(run, 1)
    && DescriptorOf(s, run) == Some(o.message.descriptor)
  }

  lemma TouchDescribes(c: Config, s: State, a: Arrival, run: RunId)
    requires c.Valid() && Inv(c, s) && a.packet.Packet?
    ensures var d := DescriptorOf(Touched(c, s, a), run); d.None? || d == DescriptorOf(s, run)
  {
    CountDatagramKeeps(c, s);
    hide Inv, TouchRun, TouchEvents;
    TouchForgets(c, CountDatagram(s), a.packet.header.run, run);
  }

  /** One datagram keeps a run's description, forgets it, or delivers it. */
  lemma FeedDescribes(c: Config, s: State, a: Arrival, run: RunId)
    requires c.Valid() && Inv(c, s)
    ensures var r := Feed(c, s, a);
            var d := DescriptorOf(r.state, run);
            d.None? || d == DescriptorOf(s, run) || DescribedBy(r.state, r.outcome, run)
  {
    hide Feed, Inv, Absorb, Touched, Opened, Core, Indexed;
    if Admitted(c, a.packet) {
      var h := a.packet.header;
      Stages(c, s, a);
      TouchDescribes(c, s, a, run);
      OpenedLatest(c, s, a);
      if !IsOld(Touched(c, s, a), KeyOf(h)) {
        AbsorbDescribes(c, Opened(c, s, a), h, a.packet.payload, run);
      }
    } else {
      Refused(c, s, a);
    }
  }

  lemma DescribedStep(c: Config, sender: Sender, s: State, a: Arrival, run: RunId)
    requires c.Valid() && Inv(c, s) && HonestPending(sender, s) && Honest(c, sender, a.packet)
    requires Described(c, sender, s, run)
    ensures Described(c, sender, Feed(c, s, a).state, run)
  {
    hide Feed, Inv, Honest, HonestPending;
    FeedDescribes(c, s, a, run);
    HonestStep(c, sender, s, a);
  }

  lemma {:induction false} StaysDescribed(c: Config, sender: Sender, s: State, ps: seq<Arrival>, run: RunId)
    requires c.Valid() && Inv(c, s) && HonestPending(sender, s) && Described(c, sender, s, run)
    requires forall i :: 0 <= i < |ps| ==> Honest(c, sender, ps[i].packet)
    ensures Described(c, sender, After(c, s, ps), run)
  {
    hide Feed, Inv, Honest, HonestPending, Described;
    if ps != [] {
      StaysDescribed(c, sender, s, ps[..|ps| - 1], run);
      HonestAfter(c, sender, s, ps[..|ps| - 1]);
      DescribedStep(c, sender, After(c, s, ps[..|ps| - 1]), ps[|ps| - 1], run);
    }
  }

  lemma CoherentDecodes(c: Config, sender: Sender, s: State, key: Key, sent: Sent)
    requires Described(c, sender, s, key.lane.run) && Coherent(c, sender, key.lane.run)
    requires sender(key) == Some(sent) && Decodable(c, key, sent)
    ensures Interpret(c, s, key, sent.time, sent.bytes).Delivered?
  {
    if key.lane.run in s.descriptions {
      var k: Key :| k.lane == Lane(key.lane.run, 1) && sender(k).Some?
                    && c.decodeDescription(sender(k).value.bytes) == Some(s.descriptions[key.lane.run]);
      assert Fits(c, c.decodeDescription(sender(k).value.bytes), key.lane.kind, sent.bytes);
    }
  }

  // ----- the arrival of every part, seen by the sender

  ghost predicate Among(ps: seq<Arrival>, p: Packet) {
    exists i :: 0 <= i < |ps| && ps[i].packet == p
  }

  /** Every fragment of the message is among the datagrams. */
  ghost predicate AllArrived(ps: seq<Arrival>, key: Key, sent: Sent) {
    forall part: nat :: part < PartCount(|sent.bytes|) ==> Among(ps, Fragment(key, sent, part))
  }

  /** Datagram `k` is the last one missing. */
  ghost predicate CompletedAt(ps: seq<Arrival>, k: nat, key: Key, sent: Sent) {
    k < |ps| && !AllArrived(ps[..k], key, sent) && AllArrived(ps[..k + 1], key, sent)
  }

  lemma AmongMore(ps: seq<Arrival>, p: Packet)
    requires ps != []
    ensures Among(ps, p) <==> Among(ps[..|ps| - 1], p) || ps[|ps| - 1].packet == p
  {
    if Among(ps[..|ps| - 1], p) {
      var i :| 0 <= i < |ps| - 1 && ps[..|ps| - 1][i].packet == p;
      assert ps[i].packet == p;
    }
  }

  lemma PartsOfFragment(c: Config, p: Packet, key: Key, sent: Sent, part: nat)
    requires Sendable(c, key, sent) && GenuineFor(c, p, key, sent)
    ensures part in PartsIn(c, p, key) <==> part < PartCount(|sent.bytes|) && p == Fragment(key, sent, part)
  {
    if part < PartCount(|sent.bytes|) && p == Fragment(key, sent, part) {
      assert IsFragment(c, p, key, sent, part);
      AdmittedIffFragment(c, p);
    }
  }

  /** Among genuine datagrams the collected parts are those whose fragments arrived: the receiver admits them all. */
  lemma {:induction false} CollectedIsArrived(c: Config, ps: seq<Arrival>, key: Key, sent: Sent, part: nat)
    requires Sendable(c, key, sent) && forall i :: 0 <= i < |ps| ==> GenuineFor(c, ps[i].packet, key, sent)
    ensures part in Collected(c, ps, key) <==> part < PartCount(|sent.bytes|) && Among(ps, Fragment(key, sent, part))
  {
    hide GenuineFor, PartsIn, PartCount, Fragment, Sendable;
    if ps != [] {
      CollectedIsArrived(c, ps[..|ps| - 1], key, sent, part);
      PartsOfFragment(c, ps[|ps| - 1].packet, key, sent, part);
      if part < PartCount(|sent.bytes|) {
        AmongMore(ps, Fragment(key, sent, part));
      }
    }
  }

  lemma AllCollected(c: Config, ps: seq<Arrival>, key: Key, sent: Sent)
    requires Sendable(c, key, sent) && forall i :: 0 <= i < |ps| ==> GenuineFor(c, ps[i].packet, key, sent)
    ensures Collected(c, ps, key) == Range(PartCount(|sent.bytes|)) <==> AllArrived(ps, key, sent)
  {
    hide GenuineFor, PartCount, Fragment, Sendable, Among, Collected;
    forall part: nat
      ensures part in Collected(c, ps, key) <==> part < PartCount(|sent.bytes|) && Among(ps, Fragment(key, sent, part))
    {
      CollectedIsArrived(c, ps, key, sent, part);
    }
    if AllArrived(ps, key, sent) {
      assert forall part :: part in Collected(c, ps, key) <==> part in Range(PartCount(|sent.bytes|));
    }
  }

  lemma CompletedIs(c: Config, ps: seq<Arrival>, k: nat, key: Key, sent: Sent)
    requires Sendable(c, key, sent) && k < |ps| && forall i :: 0 <= i <= k ==> GenuineFor(c, ps[i].packet, key, sent)
    ensures CompletedBy(c, ps, k, key, sent) <==> CompletedAt(ps, k, key, sent)
  {
    hide GenuineFor, Sendable, AllArrived, Collected, Range, PartCount;
    AllCollected(c, ps[..k], key, sent);
    AllCollected(c, ps[..k + 1], key, sent);
  }

  // ----- arrival

  /** Arrival `k` delivers a message with exactly the sent bytes, and no other arrival delivers one under the key. */
  ghost predicate ArrivesOnce(c: Config, s: State, ps: seq<Arrival>, k: nat, key: Key, sent: Sent)
    requires c.Valid() && Inv(c, s) && k < |ps|
  {
    && Delivers(c, s, ps, k, key) && Faithful(c, sent, ReactionAt(c, s, ps, k).outcome.message)
    && forall i :: 0 <= i < |ps| && Delivers(c, s, ps, i, key) ==> i == k
  }

  lemma HonestIsGenuine(c: Config, sender: Sender, p: Packet, key: Key, sent: Sent)
    requires Honest(c, sender, p) && sender(key) == Some(sent)
    ensures GenuineFor(c, p, key, sent)
  {
  }

  /**
   * Among honest and coherent senders, in traffic that is quiet until the message is complete, every sendable
   * and decodable message is delivered exactly once: when its last missing part arrives, and with its own bytes.
   */
  lemma DecodableArrives(c: Config, sender: Sender, s: State, ps: seq<Arrival>, k: nat, key: Key, sent: Sent)
    requires c.Valid() && Inv(c, s) && Holding(s, key, sent, {}) && NewOrLatest(s, key.lane.run)
    requires HonestPending(sender, s) && Described(c, sender, s, key.lane.run)
    requires sender(key) == Some(sent) && Sendable(c, key, sent) && Decodable(c, key, sent)
    requires Coherent(c, sender, key.lane.run)
    requires CompletedAt(ps, k, key, sent) && Quiet(c, ps, k, key)
    requires forall i :: 0 <= i <= k ==> Honest(c, sender, ps[i].packet)
    ensures ArrivesOnce(c, s, ps, k, key, sent)
  {
    hide Feed, Inv, Holding, Log, After, Interpret, Faithful, CompletedBy, AllArrived, Quiet, Honest, HonestPending,
         GenuineFor, NewOrLatest, Described, Coherent, Decodable, Sendable;
    forall i | 0 <= i <= k ensures GenuineFor(c, ps[i].packet, key, sent) {
      HonestIsGenuine(c, sender, ps[i].packet, key, sent);
    }
    CompletedIs(c, ps, k, key, sent);
    ArrivesInTraffic(c, s, ps, k, key, sent);
    StaysDescribed(c, sender, s, ps[..k], key.lane.run);
    CoherentDecodes(c, sender, After(c, s, ps[..k]), key, sent);
  }

  lemma StartsFresh(c: Config, sender: Sender, reporting: bool, key: Key, sent: Sent)
    requires c.Valid()
    ensures var s := Start(c, reporting);
            && Holding(s, key, sent, {}) && NewOrLatest(s, key.lane.run)
            && HonestPending(sender, s) && Described(c, sender, s, key.lane.run)
  {
  }

  /** The datagram that is the last one missing. */
  lemma {:induction false} FirstComplete(ps: seq<Arrival>, key: Key, sent: Sent) returns (k: nat)
    requires AllArrived(ps, key, sent)
    ensures CompletedAt(ps, k, key, sent)
  {
    assert Among(ps, Fragment(key, sent, 0));
    hide PartCount, Fragment, Among, AllArrived;
    var before := ps[..|ps| - 1];
    if AllArrived(before, key, sent) {
      k := FirstComplete(before, key, sent);
      assert before[..k] == ps[..k] && before[..k + 1] == ps[..k + 1];
    } else {
      k := |ps| - 1;
      assert ps[..k + 1] == ps;
    }
  }

  // ----- a message sent alone

  ghost predicate FragmentOf(p: Packet, key: Key, sent: Sent) {
    exists part: nat :: part < PartCount(|sent.bytes|) && p == Fragment(key, sent, part)
  }

  ghost predicate OnlyFragments(ps: seq<Arrival>, key: Key, sent: Sent) {
    forall i :: 0 <= i < |ps| ==> FragmentOf(ps[i].packet, key, sent)
  }

  lemma FragmentFacts(c: Config, p: Packet, key: Key, sent: Sent)
    requires FragmentOf(p, key, sent)
    ensures p.Packet? && KeyOf(p.header) == key && Honest(c, OnlySender(key, sent), p)
  {
    hide Refusal;
  }

  lemma {:induction false} NothingElse(c: Config, ps: seq<Arrival>, key: Key, sent: Sent)
    requires OnlyFragments(ps, key, sent)
    ensures OtherRuns(c, ps, key.lane.run) == {} && OtherKeys(c, ps, key) == {}
  {
    hide Admitted, FragmentOf, Honest;
    if ps != [] {
      FragmentFacts(c, ps[|ps| - 1].packet, key, sent);
      NothingElse(c, ps[..|ps| - 1], key, sent);
    }
  }

  lemma AloneIsQuiet(c: Config, ps: seq<Arrival>, k: nat, key: Key, sent: Sent)
    requires c.Valid() && OnlyFragments(ps, key, sent) && k < |ps|
    ensures Quiet(c, ps, k, key)
  {
    hide Refusal, FragmentOf, OtherRuns, OtherKeys, Honest;
    NothingElse(c, ps, key, sent);
    NothingElse(c, ps[..k + 1], key, sent);
    forall i | 0 <= i <= k ensures ps[i].packet.Packet? && KeyOf(ps[i].packet.header) == key {
      FragmentFacts(c, ps[i].packet, key, sent);
    }
  }

  function OnlySender(key: Key, sent: Sent): Sender {
    (k: Key) => if k == key then Some(sent) else None
  }

  lemma AloneIsCoherent(c: Config, key: Key, sent: Sent)
    ensures Coherent(c, OnlySender(key, sent), key.lane.run)
  {
  }

  /** All fragments, in any order and number, reach a new receiver: the bytes are delivered once, when the last part comes. */
  lemma SentAloneArrives(c: Config, reporting: bool, ps: seq<Arrival>, key: Key, sent: Sent) returns (k: nat)
    requires c.Valid() && Sendable(c, key, sent) && Decodable(c, key, sent)
    requires OnlyFragments(ps, key, sent) && AllArrived(ps, key, sent)
    ensures CompletedAt(ps, k, key, sent) && ArrivesOnce(c, Start(c, reporting), ps, k, key, sent)
  {
    k := FirstComplete(ps, key, sent);
    hide AllArrived, Sendable, Decodable, ArrivesOnce, Start, Inv, Coherent, Quiet, Honest, FragmentOf, Holding,
         HonestPending, Described, NewOrLatest;
    AloneIsQuiet(c, ps, k, key, sent);
    AloneIsCoherent(c, key, sent);
    forall i | 0 <= i <= k ensures Honest(c, OnlySender(key, sent), ps[i].packet) {
      FragmentFacts(c, ps[i].packet, key, sent);
    }
    StartsFresh(c, OnlySender(key, sent), reporting, key, sent);
    DecodableArrives(c, OnlySender(key, sent), Start(c, reporting), ps, k, key, sent);
  }
}

/** What is delivered when the datagrams come from an honest sender. */
module ReassemblyDelivery {
  import opened Wrappers
  import opened SceneStream
  import opened RunReports
  import opened Reassembly
  import opened ReassemblyInvariant
  import opened ReassemblyHistory

  // ----- safety: only what was sent, and never a conflict

  /** A datagram that is refused outright, or is the sender's own fragment for its key. */
  ghost predicate Honest(c: Config, sender: Sender, p: Packet) {
    Admitted(c, p) ==>
      var sent := sender(KeyOf(p.header));
      && sent.Some? && p.header.part < PartCount(|sent.value.bytes|)
      && p == Fragment(KeyOf(p.header), sent.value, p.header.part)
  }

  /** Chunks cut from the sent bytes, under the sent time and size. */
  ghost predicate CutFrom(e: Entry, sent: Sent) {
    && e.time == sent.time && e.total == |sent.bytes| && e.parts == PartCount(|sent.bytes|)
    && forall i :: i in e.chunks ==> i < PartCount(|sent.bytes|) && e.chunks[i] == Slice(sent.bytes, i)
  }

  ghost predicate HonestPending(sender: Sender, s: State) {
    forall k :: k in s.pending.items ==> sender(k).Some? && CutFrom(s.pending.items[k], sender(k).value)
  }

  /** A delivered message is the decoding of exactly the bytes sent under its key. */
  ghost predicate Faithful(c: Config, sent: Sent, m: Message) {
    && m.time == sent.time
    && match m
       case DescriptionMessage(_, _, d) => c.decodeDescription(sent.bytes) == Some(d)
       case StateMessage(_, _, f, _) => c.decodeState(sent.bytes) == Some(f)
  }

  lemma InterpretIsFaithful(c: Config, s: State, key: Key, sent: Sent)
    ensures var o := Interpret(c, s, key, sent.time, sent.bytes);
            if o.Delivered? then o.message.key == key && Faithful(c, sent, o.message)
            else o.Rejected? && o.reason !in {ConflictingFragments, ConflictingDuplicate}
  {
  }

  /** `t` has no pending entry that `s` lacks, `key` aside. */
  ghost predicate PendingWithin(t: State, s: State, key: Key) {
    forall k :: k in t.pending.items && k != key ==>
      k in s.pending.items && t.pending.items[k] == s.pending.items[k]
  }

  lemma CloseWithin(s: State, key: Key)
    ensures PendingWithin(Close(s, key), s, key) && key !in Close(s, key).pending.items
  {
  }

  lemma StoreWithin(s: State, key: Key, chunks: map<nat, Bytes>)
    requires key in s.pending.items
    ensures var t := Store(s, key, chunks);
            PendingWithin(t, s, key) && key in t.pending.items
            && t.pending.items[key] == s.pending.items[key].(chunks := chunks)
  {
  }

  lemma CommitWithin(s: State, key: Key, m: Message)
    ensures PendingWithin(Commit(Close(s, key), m), s, key) && key !in Commit(Close(s, key), m).pending.items
  {
  }

  /** Exactly what absorbing a genuine fragment does. */
  lemma AbsorbGenuine(c: Config, s: State, key: Key, sent: Sent, part: nat)
    requires Indexed(s) && key in s.pending.items && CutFrom(s.pending.items[key], sent)
    requires part < PartCount(|sent.bytes|)
    ensures var e := s.pending.items[key];
            var p := Fragment(key, sent, part);
            var (after, o) := Absorb(c, s, key, p.header, sent.time, p.payload);
            if part in e.chunks then (after, o) == (CountRepeated(s), Repeated)
            else if |e.chunks| + 1 < PartCount(|sent.bytes|) then
              (after, o) == (Store(s, key, e.chunks[part := p.payload]), Buffered)
            else
              && o == Interpret(c, s, key, sent.time, sent.bytes)
              && after == if o.Delivered? then Commit(Close(s, key), o.message) else Close(s, key)
  {
    var e := s.pending.items[key];
    var p := Fragment(key, sent, part);
    var chunks := e.chunks[part := p.payload];
    hide Interpret, Commit, Close, Store;
    if part !in e.chunks {
      FullChunks(e.chunks, e.parts);
      FullChunks(chunks, e.parts);
      if |e.chunks| + 1 >= PartCount(|sent.bytes|) {
        assert chunks.Keys == e.chunks.Keys + {part};
        assert |chunks| == e.parts;
        JoinSlices(chunks, sent.bytes, e.parts);
        assert sent.bytes[..|sent.bytes|] == sent.bytes;
        assert Join(chunks, e.parts) == sent.bytes;
        CloseFrames(s, key);
        SameInterpretation(c, s, Close(s, key), key, sent.time, sent.bytes);
      } else {
        assert chunks.Keys == e.chunks.Keys + {part};
      }
    }
  }

  lemma SameInterpretation(c: Config, s: State, t: State, key: Key, time: real, bytes: Bytes)
    requires DescriptorOf(s, key.lane.run) == DescriptorOf(t, key.lane.run)
    ensures Interpret(c, s, key, time, bytes) == Interpret(c, t, key, time, bytes)
  {
  }

  lemma TouchPending(c: Config, s: State, run: RunId)
    ensures forall k :: k in TouchRun(c, s, run).pending.items ==>
              k in s.pending.items && TouchRun(c, s, run).pending.items[k] == s.pending.items[k]
  {
    hide MoveToEnd;
  }

  lemma OpenPending(c: Config, s: State, key: Key, e: Entry)
    ensures forall k :: k in Open(c, s, key, e).pending.items ==>
              Open(c, s, key, e).pending.items[k]
              == if k in s.pending.items then s.pending.items[k] else e
    ensures forall k :: k in Open(c, s, key, e).pending.items ==> k in s.pending.items || k == key
  {
  }

  lemma OpenedHonest(c: Config, sender: Sender, s: State, a: Arrival)
    requires Admitted(c, a.packet) && Honest(c, sender, a.packet) && HonestPending(sender, s)
    ensures HonestPending(sender, Touched(c, s, a)) && HonestPending(sender, Opened(c, s, a))
  {
    hide TouchRun, Open;
    TouchPending(c, CountDatagram(s), a.packet.header.run);
    OpenPending(c, Touched(c, s, a), KeyOf(a.packet.header), Fresh(a.packet.header));
  }

  lemma AbsorbHonest(c: Config, sender: Sender, s: State, key: Key, sent: Sent, part: nat)
    requires Indexed(s) && HonestPending(sender, s) && key in s.pending.items && sender(key) == Some(sent)
    requires part < PartCount(|sent.bytes|)
    ensures var p := Fragment(key, sent, part);
            var (after, o) := Absorb(c, s, key, p.header, sent.time, p.payload);
            && HonestPending(sender, after)
            && (o.Rejected? ==> o.reason !in {ConflictingFragments, ConflictingDuplicate})
            && (o.Delivered? ==> o.message.key == key && Faithful(c, sent, o.message))
  {
    var p := Fragment(key, sent, part);
    var (after, o) := Absorb(c, s, key, p.header, sent.time, p.payload);
    var e := s.pending.items[key];
    assert CutFrom(e, sent);
    hide Absorb, Interpret, Faithful, Close, Store, Commit, HonestPending, PendingWithin, PartCount, Indexed;
    AbsorbGenuine(c, s, key, sent, part);
    InterpretIsFaithful(c, s, key, sent);
    CloseWithin(s, key);
    if part !in e.chunks {
      if |e.chunks| + 1 < PartCount(|sent.bytes|) {
        StoreWithin(s, key, e.chunks[part := p.payload]);
        StoreCut(e, sent, part);
      } else if o.Delivered? {
        CommitWithin(s, key, o.message);
      }
      WithinHonest(sender, s, after, key);
    }
  }

  lemma StoreCut(e: Entry, sent: Sent, part: nat)
    requires CutFrom(e, sent) && part < PartCount(|sent.bytes|)
    ensures CutFrom(e.(chunks := e.chunks[part := Slice(sent.bytes, part)]), sent)
  {
    hide PartCount, Slice;
  }

  lemma WithinHonest(sender: Sender, s: State, t: State, key: Key)
    requires HonestPending(sender, s) && PendingWithin(t, s, key)
    requires key in t.pending.items ==> sender(key).Some? && CutFrom(t.pending.items[key], sender(key).value)
    ensures HonestPending(sender, t)
  {
    hide CutFrom;
  }

  /** One honest datagram: a delivery is faithful, nothing conflicts, pending stays genuine. */
  lemma HonestStep(c: Config, sender: Sender, s: State, a: Arrival)
    requires c.Valid() && Inv(c, s) && HonestPending(sender, s) && Honest(c, sender, a.packet)
    ensures var r := Feed(c, s, a);
            && HonestPending(sender, r.state)
            && (r.outcome.Rejected? ==> r.outcome.reason !in {ConflictingFragments, ConflictingDuplicate})
            && (r.outcome.Delivered? ==>
                  var m := r.outcome.message;
                  sender(m.key).Some? && Faithful(c, sender(m.key).value, m))
  {
    hide Feed, Absorb, Inv, Touched, Opened, Faithful;
    if Admitted(c, a.packet) {
      var h, key := a.packet.header, KeyOf(a.packet.header);
      Stages(c, s, a);
      OpenedHonest(c, sender, s, a);
      if !IsOld(Touched(c, s, a), key) {
        AbsorbHonest(c, sender, Opened(c, s, a), key, sender(key).value, h.part);
      }
    } else {
      Refused(c, s, a);
    }
  }

  lemma {:induction false} HonestAfter(c: Config, sender: Sender, s: State, ps: seq<Arrival>)
    requires c.Valid() && Inv(c, s) && HonestPending(sender, s)
    requires forall i :: 0 <= i < |ps| ==> Honest(c, sender, ps[i].packet)
    ensures HonestPending(sender, After(c, s, ps))
  {
    if ps != [] {
      HonestAfter(c, sender, s, ps[..|ps| - 1]);
      HonestStep(c, sender, After(c, s, ps[..|ps| - 1]), ps[|ps| - 1]);
    }
  }

  /** Under any loss, duplication, reordering, interleaving and eviction, deliveries are faithful and nothing conflicts. */
  lemma HonestHistory(c: Config, sender: Sender, reporting: bool, ps: seq<Arrival>, i: nat)
    requires c.Valid() && i < |ps| && forall j :: 0 <= j < |ps| ==> Honest(c, sender, ps[j].packet)
    ensures var r := ReactionAt(c, Start(c, reporting), ps, i);
            && (r.outcome.Rejected? ==> r.outcome.reason !in {ConflictingFragments, ConflictingDuplicate})
            && (r.outcome.Delivered? ==>
                  var m := r.outcome.message;
                  sender(m.key).Some? && Faithful(c, sender(m.key).value, m))
  {
    HonestAfter(c, sender, Start(c, reporting), ps[..i]);
    HonestStep(c, sender, After(c, Start(c, reporting), ps[..i]), ps[i]);
  }
}

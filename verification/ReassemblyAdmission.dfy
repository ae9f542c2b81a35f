/** Which datagrams are admitted: exactly the fragments some sender could have cut. */
module ReassemblyAdmission {
  import opened Wrappers
  import opened SceneStream
  import opened Reassembly

  /** What the protocol lets a sender send: a description or a state of a numbered run, within the limit. */
  predicate Sendable(c: Config, key: Key, sent: Sent) {
    key.lane.run != 0 && key.lane.kind in {1, 2} && |sent.bytes| <= c.maximumMessageBytes
  }

  ghost predicate IsFragment(c: Config, p: Packet, key: Key, sent: Sent, part: nat) {
    Sendable(c, key, sent) && part < PartCount(|sent.bytes|) && p == Fragment(key, sent, part)
  }

  lemma SplitLength(total: nat, part: nat)
    requires part < PartCount(total)
    ensures part * CHUNK + PartLength(total, part) <= total
    ensures PartLength(total, part) <= CHUNK
  {
  }

  function Zeros(n: nat): (r: Bytes)
    ensures |r| == n
  {
    seq(n, _ => 0)
  }

  /** A message that has the payload as its part. */
  function MessageAround(payload: Bytes, total: nat, part: nat): (bytes: Bytes)
    requires part < PartCount(total) && |payload| == PartLength(total, part)
    ensures |bytes| == total && Slice(bytes, part) == payload
  {
    SplitLength(total, part);
    Zeros(part * CHUNK) + payload + Zeros(total - part * CHUNK - |payload|)
  }

  /** Every fragment of every sendable message is admitted, and nothing else. */
  lemma AdmittedIffFragment(c: Config, p: Packet)
    ensures Admitted(c, p) <==> exists key, sent, part :: IsFragment(c, p, key, sent, part)
  {
    if Admitted(c, p) {
      var h := p.header;
      var sent := Sent(h.time.seconds, MessageAround(p.payload, h.total, h.part));
      assert IsFragment(c, p, KeyOf(h), sent, h.part);
    }
    if key, sent, part :| IsFragment(c, p, key, sent, part) {
      SplitLength(|sent.bytes|, part);
    }
  }

  // ----- why a datagram is refused: what could not be repaired

  /** Some payload makes the header admissible. */
  ghost predicate PayloadRepairs(c: Config, h: Header) {
    exists payload: Bytes :: Admitted(c, Packet(h, payload))
  }

  /** Some part numbers and payload do. */
  ghost predicate PartsRepair(c: Config, h: Header) {
    exists part: nat, parts: nat :: PayloadRepairs(c, h.(part := part, parts := parts))
  }

  /** Some length, part numbers and payload do. */
  ghost predicate LengthRepairs(c: Config, h: Header) {
    exists total: nat :: PartsRepair(c, h.(total := total))
  }

  lemma PayloadRepairsIff(c: Config, h: Header)
    ensures PayloadRepairs(c, h) <==> Refusal(c, Packet(h, [])) in {None, Some(PartLengthMismatch)}
  {
    if Refusal(c, Packet(h, [])) in {None, Some(PartLengthMismatch)} {
      SplitLength(h.total, h.part);
      assert Admitted(c, Packet(h, Zeros(PartLength(h.total, h.part))));
    }
  }

  lemma PartsRepairIff(c: Config, h: Header)
    ensures PartsRepair(c, h) <==> Refusal(c, Packet(h, [])) in {None, Some(PartLengthMismatch), Some(BadParts)}
  {
    if part: nat, parts: nat :| PayloadRepairs(c, h.(part := part, parts := parts)) {
      PayloadRepairsIff(c, h.(part := part, parts := parts));
    }
    if Refusal(c, Packet(h, [])) in {None, Some(PartLengthMismatch), Some(BadParts)} {
      PayloadRepairsIff(c, h.(part := 0, parts := PartCount(h.total)));
    }
  }

  lemma LengthRepairsIff(c: Config, h: Header)
    ensures LengthRepairs(c, h) <==> Refusal(c, Packet(h, [])) != Some(BadHeader)
  {
    if total: nat :| PartsRepair(c, h.(total := total)) {
      PartsRepairIff(c, h.(total := total));
    }
    if Refusal(c, Packet(h, [])) != Some(BadHeader) {
      PartsRepairIff(c, h.(total := 0));
    }
  }

  /** The reason names the first thing wrong: repairing all that is checked after it would not help. */
  lemma RefusalReason(c: Config, p: Packet)
    ensures Refusal(c, p) == Some(PacketLength) <==> p.Short? || CHUNK < |p.payload|
    ensures p.Packet? && |p.payload| <= CHUNK ==>
              && (Refusal(c, p) == Some(PartLengthMismatch) <==> PayloadRepairs(c, p.header) && !Admitted(c, p))
              && (Refusal(c, p) == Some(BadParts) <==> PartsRepair(c, p.header) && !PayloadRepairs(c, p.header))
              && (Refusal(c, p) == Some(MessageByteLimit) <==> LengthRepairs(c, p.header) && !PartsRepair(c, p.header))
              && (Refusal(c, p) == Some(BadHeader) <==> !LengthRepairs(c, p.header))
  {
    if p.Packet? && |p.payload| <= CHUNK {
      PayloadRepairsIff(c, p.header);
      PartsRepairIff(c, p.header);
      LengthRepairsIff(c, p.header);
    }
    hide PayloadRepairs, PartsRepair, LengthRepairs;
  }
}

/** The datagrams of the state stream and the split of a message into parts. */
module SceneStream {
  import opened Wrappers

  type Byte = b: int | 0 <= b < 256
  type Bytes = seq<Byte>
  type RunId = nat

  /** Payload bytes one datagram can carry: 1200 less the 40-byte header. */
  const CHUNK: nat := 1160

  datatype Time = Finite(seconds: real) | NonFinite

  datatype Header = Header(
    magicMatches: bool, version: nat, kind: nat, run: RunId, sequence: nat,
    time: Time, part: nat, parts: nat, total: nat)

  /** A datagram shorter than the header is Short; any other has its header unpacked. */
  datatype Packet = Short | Packet(header: Header, payload: Bytes)

  /** Sequence numbers are ordered separately in each lane. */
  datatype Lane = Lane(run: RunId, kind: nat)

  datatype Key = Key(lane: Lane, sequence: nat)

  /** What one sender split into fragments under one key. */
  datatype Sent = Sent(time: real, bytes: Bytes)

  type Sender = Key -> Option<Sent>

  function Min(a: int, b: int): int { if a < b then a else b }

  function Max(a: int, b: int): int { if a < b then b else a }

  function PartCount(total: nat): (parts: nat)
    ensures 1 <= parts
    ensures total <= parts * CHUNK
    ensures 0 < total ==> (parts - 1) * CHUNK < total
  {
    Max(1, (total + CHUNK - 1) / CHUNK)
  }

  function PartLength(total: nat, part: nat): nat
    requires part < PartCount(total)
  {
    Min(CHUNK, total - part * CHUNK)
  }

  function Slice(bytes: Bytes, part: nat): (slice: Bytes)
    requires part < PartCount(|bytes|)
    ensures |slice| == PartLength(|bytes|, part)
  {
    bytes[part * CHUNK .. part * CHUNK + PartLength(|bytes|, part)]
  }

  function KeyOf(h: Header): Key {
    Key(Lane(h.run, h.kind), h.sequence)
  }

  /** The datagram the sender emits for one part of the message under `key`. */
  function Fragment(key: Key, sent: Sent, part: nat): Packet
    requires part < PartCount(|sent.bytes|)
  {
    Packet(Header(true, 1, key.lane.kind, key.lane.run, key.sequence, Finite(sent.time),
                  part, PartCount(|sent.bytes|), |sent.bytes|),
           Slice(sent.bytes, part))
  }

  /** Concatenates chunks 0 .. n-1. */
  function Join(chunks: map<nat, Bytes>, n: nat): Bytes
    requires forall i :: 0 <= i < n ==> i in chunks
  {
    if n == 0 then [] else Join(chunks, n - 1) + chunks[n - 1]
  }

  /** Joining the first n slices restores the bytes they were cut from. */
  lemma {:induction false} JoinSlices(chunks: map<nat, Bytes>, bytes: Bytes, n: nat)
    requires n <= PartCount(|bytes|)
    requires forall i :: 0 <= i < n ==> i in chunks && chunks[i] == Slice(bytes, i)
    ensures Join(chunks, n) == bytes[..Min(|bytes|, n * CHUNK)]
  {
    if n != 0 {
      JoinSlices(chunks, bytes, n - 1);
      assert Min(|bytes|, (n - 1) * CHUNK) == (n - 1) * CHUNK;
    }
  }

  /** The bytes held among chunks 0 .. n-1. */
  function HeldBytes(chunks: map<nat, Bytes>, n: nat): nat {
    if n == 0 then 0
    else HeldBytes(chunks, n - 1) + (if n - 1 in chunks then |chunks[n - 1]| else 0)
  }

  /** Correctly sized chunks with a gap below n hold less than the n parts' bytes. */
  lemma {:induction false} HeldBytesBound(chunks: map<nat, Bytes>, total: nat, n: nat)
    requires n <= PartCount(total)
    requires forall i :: i in chunks && i < PartCount(total) ==> |chunks[i]| == PartLength(total, i)
    ensures HeldBytes(chunks, n) <= Min(total, n * CHUNK)
    ensures 0 < total && (exists i :: 0 <= i < n && i !in chunks) ==>
              HeldBytes(chunks, n) < Min(total, n * CHUNK)
  {
    if n != 0 {
      HeldBytesBound(chunks, total, n - 1);
      assert Min(total, (n - 1) * CHUNK) == (n - 1) * CHUNK || total == 0;
    }
  }
}

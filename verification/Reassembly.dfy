/** One datagram's effect on the bounded reassembler, as a function on its state. */
module Reassembly {
  import opened Wrappers
  import opened OrderedTables
  import opened SceneStream
  import opened RunReports

  /** The receiver's limits and its two decoders, which are deterministic and may fail. */
  datatype Config = Config(
    maximumMessageBytes: nat, maximumPending: nat, maximumRuns: nat,
    decodeDescription: Bytes -> Option<Descriptor>, decodeState: Bytes -> Option<StateFrame>)
  {
    predicate Valid() {
      1 <= maximumMessageBytes && 1 <= maximumPending && 1 <= maximumRuns
    }
  }

  datatype Entry = Entry(time: real, parts: nat, total: nat, chunks: map<nat, Bytes>)

  datatype Statistics = Statistics(
    datagrams: nat, invalid: nat, duplicateOrOld: nat, evictedIncomplete: nat, stateFrames: nat, sequenceGaps: int)

  datatype State = State(
    pending: Table<Key, Entry>, runs: seq<RunId>, latest: map<Lane, nat>, descriptions: map<RunId, Descriptor>,
    reports: Option<map<RunId, Report>>, evictedRuns: nat, statistics: Statistics)

  datatype Reason =
    | PacketLength | BadHeader | MessageByteLimit | BadParts | PartLengthMismatch
    | ConflictingFragments | ConflictingDuplicate
    | UndecodableDescription | DescriptionChanged | UndecodableState | DescriptionCount

  datatype Outcome = Rejected(reason: Reason) | Repeated | Buffered | Delivered(message: Message)

  /** What a step forgets or delivers, in the order it does so. */
  datatype Event = RunEvicted(run: RunId) | PendingEvicted(key: Key) | MessageDelivered(key: Key)

  datatype Reaction = Reaction(state: State, outcome: Outcome, events: seq<Event>)

  datatype Arrival = Arrival(packet: Packet, at: real)

  function Initial(reporting: bool): State {
    State(Table([], map[]), [], map[], map[], if reporting then Some(map[]) else None, 0,
          Statistics(0, 0, 0, 0, 0, 0))
  }

  // ----- admission

  /** The first check a datagram fails before it touches any table. */
  function Refusal(c: Config, p: Packet): Option<Reason> {
    if p.Short? || CHUNK < |p.payload| then Some(PacketLength)
    else
      var h := p.header;
      if !h.magicMatches || h.version != 1 || (h.kind != 1 && h.kind != 2) || h.run == 0 || h.time.NonFinite? then
        Some(BadHeader)
      else if c.maximumMessageBytes < h.total then Some(MessageByteLimit)
      else if h.parts != PartCount(h.total) || h.parts <= h.part then Some(BadParts)
      else if |p.payload| != PartLength(h.total, h.part) then Some(PartLengthMismatch)
      else None
  }

  predicate Admitted(c: Config, p: Packet) {
    p.Packet? && Refusal(c, p).None?
  }

  // ----- runs

  function MoveToEnd(runs: seq<RunId>, run: RunId): (r: seq<RunId>)
    ensures r != [] && r[|r| - 1] == run
  {
    Filter(runs, other => other != run) + [run]
  }

  function OfOtherRun(run: RunId): Key -> bool {
    (k: Key) => k.lane.run != run
  }

  /** Every key but those of the lane that a delivery of `key` leaves behind. */
  function NotSupersededBy(key: Key): Key -> bool {
    (k: Key) => !(k.lane == key.lane && k.sequence <= key.sequence)
  }

  /** Everything remembered about a run, and its incomplete messages, dropped. */
  function Forget(s: State, run: RunId): State {
    var kept := s.pending.Keep(OfOtherRun(run));
    s.(evictedRuns := s.evictedRuns + 1,
       reports := if s.reports.None? then None else Some(s.reports.value - {run}),
       descriptions := s.descriptions - {run},
       latest := s.latest - (set lane | lane in s.latest && lane.run == run),
       pending := kept,
       statistics := s.statistics.(evictedIncomplete :=
         s.statistics.evictedIncomplete + (|s.pending.order| - |kept.order|)))
  }

  /** Marks a run as most recent; the oldest goes when there are too many. */
  function TouchRun(c: Config, s: State, run: RunId): State {
    var runs := MoveToEnd(s.runs, run);
    if |runs| <= c.maximumRuns then s.(runs := runs)
    else Forget(s.(runs := runs[1..]), runs[0])
  }

  function TouchEvents(c: Config, s: State, run: RunId): seq<Event> {
    var runs := MoveToEnd(s.runs, run);
    if |runs| <= c.maximumRuns then [] else [RunEvicted(runs[0])]
  }

  // ----- pending messages

  /** Opens an entry for a new key; the oldest entry goes when there are too many. */
  function Open(c: Config, s: State, key: Key, entry: Entry): State {
    if key in s.pending.items then s
    else
      var grown := s.pending.Put(key, entry);
      if |grown.order| <= c.maximumPending then s.(pending := grown)
      else s.(pending := grown.PopFirst(),
              statistics := s.statistics.(evictedIncomplete := s.statistics.evictedIncomplete + 1))
  }

  function OpenEvents(c: Config, s: State, key: Key): seq<Event> {
    if key in s.pending.items || |s.pending.order| < c.maximumPending then []
    else [PendingEvicted((s.pending.order + [key])[0])]
  }

  function CountRepeated(s: State): State {
    s.(statistics := s.statistics.(duplicateOrOld := s.statistics.duplicateOrOld + 1))
  }

  function Close(s: State, key: Key): State {
    s.(pending := s.pending.Remove(key))
  }

  function Store(s: State, key: Key, chunks: map<nat, Bytes>): State
    requires key in s.pending.items
  {
    s.(pending := s.pending.Put(key, s.pending.items[key].(chunks := chunks)))
  }

  /** Adds one chunk to an open entry; a full entry leaves the table and is decoded. */
  function Absorb(c: Config, s: State, key: Key, h: Header, time: real, payload: Bytes): (State, Outcome)
    requires key in s.pending.items
    requires forall i :: i in s.pending.items[key].chunks ==> i < s.pending.items[key].parts
    requires h.part < h.parts
  {
    var e := s.pending.items[key];
    var without := Close(s, key);
    if (time, h.parts, h.total) != (e.time, e.parts, e.total) then (without, Rejected(ConflictingFragments))
    else if h.part in e.chunks then
      if e.chunks[h.part] != payload then (without, Rejected(ConflictingDuplicate))
      else (CountRepeated(s), Repeated)
    else
      var chunks := e.chunks[h.part := payload];
      if |chunks| != h.parts then (Store(s, key, chunks), Buffered)
      else
        FullChunks(chunks, h.parts);
        Complete(c, without, key, time, Join(chunks, h.parts))
  }

  lemma {:induction false} FullChunks(chunks: map<nat, Bytes>, n: nat)
    requires forall i :: i in chunks ==> i < n
    ensures |chunks| <= n
    ensures |chunks| == n <==> forall i :: 0 <= i < n ==> i in chunks
  {
    SubsetSize(chunks.Keys, Range(n));
    if forall i :: 0 <= i < n ==> i in chunks {
      assert chunks.Keys == Range(n);
    }
  }

  /** The part numbers of a message with n parts. */
  function Range(n: nat): (r: set<nat>)
    ensures |r| == n
    ensures forall i: nat :: i in r <==> i < n
  {
    if n == 0 then {} else Range(n - 1) + {n - 1}
  }

  lemma SubsetSize<T>(a: set<T>, b: set<T>)
    requires a <= b
    ensures |a| <= |b|
    ensures |a| == |b| ==> a == b
  {
    assert b == a + (b - a);
    assert |b| == |a| + |b - a|;
  }

  // ----- decoding and delivery

  /** Whether a state agrees with the description its run has. */
  predicate CountsAgree(d: Option<Descriptor>, f: StateFrame) {
    d.Some? ==> |d.value.bodyNames| == |f.bodies| && |d.value.scalarNames| == |f.scalarValues|
  }

  function DescriptorOf(s: State, run: RunId): Option<Descriptor> {
    if run in s.descriptions then Some(s.descriptions[run]) else None
  }

  /** The message a complete payload stands for in state `s`, or why there is none. */
  function Interpret(c: Config, s: State, key: Key, time: real, payload: Bytes): Outcome {
    var known := DescriptorOf(s, key.lane.run);
    if key.lane.kind == 1 then
      match c.decodeDescription(payload)
      case None => Rejected(UndecodableDescription)
      case Some(d) =>
        if known.Some? && known.value != d then Rejected(DescriptionChanged)
        else Delivered(DescriptionMessage(key, time, d))
    else
      match c.decodeState(payload)
      case None => Rejected(UndecodableState)
      case Some(f) =>
        if CountsAgree(known, f) then Delivered(StateMessage(key, time, f, known))
        else Rejected(DescriptionCount)
  }

  /** The state after a delivery: the lane moves on and older incomplete messages in it go. */
  function Commit(s: State, m: Message): State {
    var lane, sequence := m.key.lane, m.key.sequence;
    var described := if m.DescriptionMessage? then s.descriptions[lane.run := m.descriptor] else s.descriptions;
    var counted :=
      if m.DescriptionMessage? then s.statistics
      else s.statistics.(
             stateFrames := s.statistics.stateFrames + 1,
             sequenceGaps := s.statistics.sequenceGaps
                             + (if lane in s.latest then sequence - s.latest[lane] - 1 else 0));
    s.(descriptions := described, statistics := counted,
       latest := s.latest[lane := sequence],
       pending := s.pending.Keep(NotSupersededBy(m.key)))
  }

  function Complete(c: Config, s: State, key: Key, time: real, payload: Bytes): (State, Outcome) {
    var outcome := Interpret(c, s, key, time, payload);
    (if outcome.Delivered? then Commit(s, outcome.message) else s, outcome)
  }

  // ----- one step

  /** Where the state keeps every pending chunk number below its part count. */
  ghost predicate Indexed(s: State) {
    && s.pending.Valid()
    && forall k :: k in s.pending.items ==>
         forall i :: i in s.pending.items[k].chunks ==> i < s.pending.items[k].parts
  }

  function IsOld(s: State, key: Key): bool {
    key.lane in s.latest && key.sequence <= s.latest[key.lane]
  }

  lemma OpenHolds(c: Config, s: State, key: Key, entry: Entry)
    requires c.Valid() && Indexed(s) && forall i :: i in entry.chunks ==> i < entry.parts
    ensures Indexed(Open(c, s, key, entry))
    ensures key in Open(c, s, key, entry).pending.items
  {
    if key !in s.pending.items {
      assert key !in s.pending.order;
    }
  }

  lemma TouchIndexed(c: Config, s: State, run: RunId)
    requires Indexed(s)
    ensures Indexed(TouchRun(c, s, run))
  {
  }

  function MessageEvents(o: Outcome): seq<Event> {
    if o.Delivered? then [MessageDelivered(o.message.key)] else []
  }

  /** The receive step proper, without the datagram counters and reports. */
  function Reassemble(c: Config, s: State, p: Packet): Reaction
    requires c.Valid() && Indexed(s)
  {
    if !Admitted(c, p) then Reaction(s, Rejected(Refusal(c, p).value), [])
    else
      var h := p.header;
      var key := KeyOf(h);
      var touched := TouchRun(c, s, h.run);
      var first := TouchEvents(c, s, h.run);
      TouchIndexed(c, s, h.run);
      if IsOld(touched, key) then Reaction(CountRepeated(touched), Repeated, first)
      else
        var entry := Entry(h.time.seconds, h.parts, h.total, map[]);
        OpenHolds(c, touched, key, entry);
        var (after, outcome) := Absorb(c, Open(c, touched, key, entry), key, h, h.time.seconds, p.payload);
        Reaction(after, outcome, first + OpenEvents(c, touched, key) + MessageEvents(outcome))
  }

  /** The report of the message's run, with this message observed. */
  function Reported(s: State, m: Message, at: real): State
    requires s.reports.Some? ==> ZipFits(ReportOf(s, m.key.lane.run), m, DescriptorOf(s, m.key.lane.run))
  {
    var run := m.key.lane.run;
    if s.reports.None? then s
    else s.(reports := Some(s.reports.value[run := Observe(ReportOf(s, run), m, DescriptorOf(s, run), at)]))
  }

  function ReportOf(s: State, run: RunId): Report
    requires s.reports.Some?
  {
    if run in s.reports.value then s.reports.value[run] else EMPTY_REPORT
  }

  function CountDatagram(s: State): State {
    s.(statistics := s.statistics.(datagrams := s.statistics.datagrams + 1))
  }

  function CountInvalid(s: State): State {
    s.(statistics := s.statistics.(invalid := s.statistics.invalid + 1))
  }
}

/** What a reader makes of each line, and the one value it may return. */
module Readings {
  import opened Wrappers

  datatype Reading = Other | Malformed | Holds(value: string)

  /** The values held, in order; None from the first malformed line on. */
  function Collect(readings: seq<Reading>): Option<seq<string>> {
    if readings == [] then Some([])
    else
      var last := |readings| - 1;
      Add(Collect(readings[..last]), readings[last])
  }

  function Add(collected: Option<seq<string>>, reading: Reading): Option<seq<string>> {
    if collected.None? then None
    else
      match reading
      case Other => collected
      case Malformed => None
      case Holds(value) => Some(collected.value + [value])
  }

  lemma CollectMore(readings: seq<Reading>, reading: Reading)
    ensures Collect(readings + [reading]) == Add(Collect(readings), reading)
  {
    assert (readings + [reading])[..|readings|] == readings;
  }

  /** The only value; None where the readers raise. */
  function Single(readings: seq<Reading>): Option<string> {
    match Collect(readings)
    case None => None
    case Some(values) => if |values| == 1 then Some(values[0]) else None
  }

  lemma {:induction false} NoneHeld(readings: seq<Reading>)
    ensures Collect(readings) == Some([]) <==> forall i :: 0 <= i < |readings| ==> readings[i] == Other
  {
    if readings != [] {
      NoneHeld(readings[..|readings| - 1]);
    }
  }

  ghost predicate OnlyHolds(readings: seq<Reading>, v: string, at: nat) {
    && at < |readings| && readings[at] == Holds(v)
    && forall i :: 0 <= i < |readings| && i != at ==> readings[i] == Other
  }

  /** A value is returned exactly when one line holds it and no other line says anything. */
  lemma {:induction false} SingleMeaning(readings: seq<Reading>, v: string)
    ensures Single(readings) == Some(v) <==> exists at: nat :: OnlyHolds(readings, v, at)
  {
    if readings != [] {
      var last := |readings| - 1;
      var before := readings[..last];
      NoneHeld(before);
      SingleMeaning(before, v);
      match readings[last]
      case Other =>
        forall at: nat ensures OnlyHolds(readings, v, at) <==> OnlyHolds(before, v, at) {
          OnlyBefore(readings, v, at);
        }
      case Malformed =>
      case Holds(value) =>
        assert Collect(before) == Some([]) && value == v ==> OnlyHolds(readings, v, last);
        assert Single(readings) == Some(v) <==> Collect(before) == Some([]) && value == v;
    }
  }

  lemma OnlyBefore(readings: seq<Reading>, v: string, at: nat)
    requires readings != [] && readings[|readings| - 1] == Other
    ensures OnlyHolds(readings, v, at) <==> OnlyHolds(readings[..|readings| - 1], v, at)
  {
    var before := readings[..|readings| - 1];
    if OnlyHolds(before, v, at) {
      assert forall i :: 0 <= i < |before| ==> readings[i] == before[i];
    }
  }

  lemma CollectNone(readings: seq<Reading>)
    ensures Collect(readings[..0]) == Some([])
  {
  }

  lemma CollectNext(readings: seq<Reading>, i: nat)
    requires i < |readings|
    ensures Collect(readings[..i + 1]) == Add(Collect(readings[..i]), readings[i])
  {
    assert readings[..i + 1] == readings[..i] + [readings[i]];
    CollectMore(readings[..i], readings[i]);
  }

  /** A malformed line ends the reading. */
  lemma {:induction false} StaysMalformed(readings: seq<Reading>, n: nat)
    requires n <= |readings| && Collect(readings[..n]).None?
    ensures Collect(readings).None?
    decreases |readings| - n
  {
    if n < |readings| {
      assert readings[..n + 1][..n] == readings[..n];
      StaysMalformed(readings, n + 1);
    } else {
      assert readings[..n] == readings;
    }
  }
}

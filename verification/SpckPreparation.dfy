/** Preparing a SIMPACK model: the frozen track contract, six edits and the result precision. */
module SpckPreparation {
  import opened Wrappers
  import opened TextLines
  import opened ModelEditor
  import opened ScopedAssignments
  import opened ResultSettings
  import opened TrackDefinitions

  /** Numbers arrive as formatted text. */
  datatype Scenario = Scenario(track: string, speed: string, meetOutputPoints: bool, duration: string,
                               frequency: string)

  datatype Irregularity = Irregularity(lateral: string, vertical: string, startParameter: string, endParameter: string,
                                       fadeParameter: string, startValue: string, endValue: string, fadeValue: string)

  datatype Expectation = Expectation(property: string, owner: string, value: string)

  /** Each property the contract reads, for the track or for one of the irregularity's parameters. */
  function Expectations(track: string, c: Irregularity): seq<Expectation> {
    [Expectation("track.excit.type", track, "1"),
     Expectation("track.excit.lat", track, c.lateral),
     Expectation("track.excit.vert", track, c.vertical),
     Expectation("track.excit.roll", track, "null"),
     Expectation("track.excit.left.lat", track, "null"),
     Expectation("track.excit.left.vert", track, "null"),
     Expectation("track.excit.left.roll", track, "null"),
     Expectation("track.excit.right.lat", track, "null"),
     Expectation("track.excit.right.vert", track, "null"),
     Expectation("track.excit.right.roll", track, "null"),
     Expectation("track.excit.gauge", track, "null"),
     Expectation("track.excit.start", track, c.startParameter),
     Expectation("track.excit.end", track, c.endParameter),
     Expectation("track.excit.fade.len", track, c.fadeParameter)]
    + [Expectation("subvar.str", c.startParameter, c.startValue),
       Expectation("subvar.str", c.endParameter, c.endValue),
       Expectation("subvar.str", c.fadeParameter, c.fadeValue)]
  }

  predicate Meets(source: string, expected: seq<Expectation>) {
    forall k :: 0 <= k < |expected| ==> MeetsOne(source, expected[k])
  }

  predicate MeetsOne(source: string, e: Expectation) {
    ScopedValue(source, e.property, e.owner) == Some(e.value)
  }

  predicate TrackContract(source: string, track: string, c: Irregularity) {
    Meets(source, Expectations(track, c))
  }

  /** A property of the contract that must read as null for the track. */
  predicate Null(source: string, q: string, track: string) {
    ScopedValue(source, q, track) == Some("null")
  }

  /** The track names the parameter for one end of the irregularity, and the parameter has its value. */
  predicate Spanned(source: string, track: string, q: string, parameter: string, value: string) {
    ScopedValue(source, q, track) == Some(parameter) && ScopedValue(source, "subvar.str", parameter) == Some(value)
  }

  /** The contract, property by property. */
  lemma ContractIs(source: string, track: string, c: Irregularity)
    ensures TrackContract(source, track, c) <==>
            && ScopedValue(source, "track.excit.type", track) == Some("1")
            && ScopedValue(source, "track.excit.lat", track) == Some(c.lateral)
            && ScopedValue(source, "track.excit.vert", track) == Some(c.vertical)
            && Null(source, "track.excit.roll", track) && Null(source, "track.excit.gauge", track)
            && Null(source, "track.excit.left.lat", track) && Null(source, "track.excit.left.vert", track)
            && Null(source, "track.excit.left.roll", track) && Null(source, "track.excit.right.lat", track)
            && Null(source, "track.excit.right.vert", track) && Null(source, "track.excit.right.roll", track)
            && Spanned(source, track, "track.excit.start", c.startParameter, c.startValue)
            && Spanned(source, track, "track.excit.end", c.endParameter, c.endValue)
            && Spanned(source, track, "track.excit.fade.len", c.fadeParameter, c.fadeValue)
  {
    hide ScopedValue;
    var es := Expectations(track, c);
    if TrackContract(source, track, c) {
      assert MeetsOne(source, es[0]) && MeetsOne(source, es[1]) && MeetsOne(source, es[2]) && MeetsOne(source, es[3]);
      assert MeetsOne(source, es[4]) && MeetsOne(source, es[5]) && MeetsOne(source, es[6]);
      assert MeetsOne(source, es[7]) && MeetsOne(source, es[8]) && MeetsOne(source, es[9]) && MeetsOne(source, es[10]);
      assert MeetsOne(source, es[11]) && MeetsOne(source, es[12]) && MeetsOne(source, es[13]);
      assert MeetsOne(source, es[14]) && MeetsOne(source, es[15]) && MeetsOne(source, es[16]);
    }
  }

  method VerifyTrackContract(source: string, track: string, c: Irregularity) returns (ok: bool)
    ensures ok == TrackContract(source, track, c)
  {
    hide ScopedValue, Expectations;
    var expected := Expectations(track, c);
    for k := 0 to |expected|
      invariant Meets(source, expected[..k])
    {
      var actual := ScopedAssignmentValue(source, expected[k].property, expected[k].owner);
      if actual != Some(expected[k].value) {
        assert !MeetsOne(source, expected[k]);
        return false;
      }
      assert MeetsOne(source, expected[k]);
    }
    assert expected[..|expected|] == expected;
    ok := true;
  }

  // ----- the edits

  function Edits(s: Scenario): seq<Edit> {
    [Edit("track.active", s.track),
     Edit("vehicle.startvel", "{ " + s.speed + "/3.6 }"),
     Edit("vehicle.applystartvel", "1"),
     Edit("slv.integ.meetop", if s.meetOutputPoints then "1" else "0"),
     Edit("slv.integ.tend.time", "{ " + s.duration + " s }"),
     Edit("slv.integ.tout.freq", "{ " + s.frequency + " Hz }")]
  }

  /** The edits in order; None where one raises. */
  function ReplaceAll(text: string, edits: seq<Edit>): Option<string>
    decreases |edits|
  {
    if edits == [] then Some(text)
    else
      match Replace(text, edits[0].property, edits[0].value)
      case None => None
      case Some(t) => ReplaceAll(t, edits[1..])
  }

  /** None where the code raises. */
  function Prepare(source: string, s: Scenario, c: Option<Irregularity>): Option<string> {
    if Definitions(SplitKeep(source), s.track) != 1 || c.None? || !TrackContract(source, s.track, c.value) then None
    else
      match ReplaceAll(source, Edits(s))
      case None => None
      case Some(t) => SetBinary64(t)
  }

  method PrepareSpck(source: string, s: Scenario, c: Option<Irregularity>) returns (r: Option<string>)
    ensures r == Prepare(source, s, c)
  {
    hide TrackContract, Edits, Replace, SetBinary64, Definitions, SplitKeep;
    var definitions := CountDefinitions(source, s.track);
    if definitions != 1 || c.None? {
      return None;
    }
    var ok := VerifyTrackContract(source, s.track, c.value);
    if !ok {
      return None;
    }
    var edits := Edits(s);
    var result := source;
    for k := 0 to |edits|
      invariant ReplaceAll(source, edits) == ReplaceAll(result, edits[k..])
    {
      var edited := ReplaceAssignment(result, edits[k].property, edits[k].value);
      assert edits[k..][1..] == edits[k + 1..];
      if edited.None? {
        return None;
      }
      result := edited.value;
    }
    r := SetBinary64Results(result);
  }

  // ----- the names involved

  /** Names the edits write: they start with 'v', "sl" or "track.a". */
  predicate Written(p: string) {
    PropertyName(p) && |p| > 6 && (p[0] == 'v' || (p[0] == 's' && p[1] == 'l') || (p[0] == 't' && p[6] == 'a'))
  }

  /** Names the contract reads: they start with "su" or "track.e". */
  predicate Read(q: string) {
    PropertyName(q) && |q| > 6 && ((q[0] == 's' && q[1] == 'u') || (q[0] == 't' && q[6] == 'e'))
  }

  predicate Writable(s: Scenario) { EditableValue(s.track) && Clean(s.speed) && Clean(s.duration) && Clean(s.frequency) }

  predicate Editable(e: Edit) { Written(e.property) && EditableValue(e.value) }

  lemma VehicleNames()
    ensures Written("track.active") && Written("vehicle.startvel") && Written("vehicle.applystartvel")
  {
  }

  lemma IntegratorNames()
    ensures Written("slv.integ.meetop") && Written("slv.integ.tend.time") && Written("slv.integ.tout.freq")
  {
  }

  lemma EditsAreEditable(s: Scenario)
    requires Writable(s)
    ensures |Edits(s)| == 6 && AllEditable(Edits(s))
  {
    VehicleNames();
    IntegratorNames();
    hide Written;
    BracedIsEditable("{ ", s.speed, "/3.6 }");
    BracedIsEditable("{ ", s.duration, " s }");
    BracedIsEditable("{ ", s.frequency, " Hz }");
    assert EditableValue("1") && EditableValue("0");
    hide EditableValue;
  }

  lemma EditsAreDistinct(s: Scenario)
    ensures Distinct(Edits(s))
  {
    var a, b := "vehicle.startvel", "slv.integ.meetop";
    assert a[0] != b[0];
    var c, d := "slv.integ.tend.time", "slv.integ.tout.freq";
    assert c[11] != d[11];
  }

  lemma CentreNames()
    ensures Read("track.excit.type") && Read("track.excit.lat") && Read("track.excit.vert") && Read("track.excit.roll")
  {
  }

  lemma LeftNames()
    ensures Read("track.excit.left.lat") && Read("track.excit.left.vert") && Read("track.excit.left.roll")
  {
  }

  lemma RightNames()
    ensures Read("track.excit.right.lat") && Read("track.excit.right.vert") && Read("track.excit.right.roll")
  {
  }

  lemma SpanNames()
    ensures Read("track.excit.start") && Read("track.excit.end") && Read("track.excit.fade.len")
  {
  }

  lemma OtherNames()
    ensures Read("track.excit.gauge") && Read("subvar.str")
  {
  }

  lemma ExpectationsRead(track: string, c: Irregularity)
    ensures forall k :: 0 <= k < |Expectations(track, c)| ==> Read(Expectations(track, c)[k].property)
  {
    CentreNames();
    LeftNames();
    RightNames();
    SpanNames();
    OtherNames();
    hide Read;
  }

  // ----- what preparation keeps and what it sets

  predicate NotEdited(edits: seq<Edit>, q: string) { forall k :: 0 <= k < |edits| ==> edits[k].property != q }

  predicate AllEditable(edits: seq<Edit>) { forall k :: 0 <= k < |edits| ==> Editable(edits[k]) }

  /** Edits leave the own lines of every property they do not name, and whether the precision setting takes hold. */
  lemma {:induction false} EditsLeaveOwn(text: string, edits: seq<Edit>, q: string)
    requires PropertyName(q) && NotEdited(edits, q) && AllEditable(edits) && ReplaceAll(text, edits).Some?
    ensures Own(SplitKeep(ReplaceAll(text, edits).value), q) == Own(SplitKeep(text), q)
    ensures TakesHold(SplitKeep(ReplaceAll(text, edits).value)) <==> TakesHold(SplitKeep(text))
    decreases |edits|
  {
    hide Replace, Own, TakesHold, SplitKeep, EditableValue, PropertyName, ReplaceIn, WellFormed;
    if edits != [] {
      var first, rest := edits[0], edits[1..];
      assert Editable(first) && first.property != q;
      forall k | 0 <= k < |rest| ensures Editable(rest[k]) && rest[k].property != q { assert rest[k] == edits[k + 1]; }
      var edited := Replace(text, first.property, first.value).value;
      ReplaceOnLines(text, first.property, first.value);
      EditLeavesOwn(SplitKeep(text), first.property, first.value, q);
      EditKeepsTakesHold(SplitKeep(text), first.property, first.value);
      EditsLeaveOwn(edited, rest, q);
    }
  }

  lemma EditNamesNot(s: Scenario, q: string)
    ensures Read(q) ==> NotEdited(Edits(s), q) && q != PRECISION && q != ANCHOR && q != ANCHOR + PRECISION
    ensures q == ANCHOR || q == PRECISION || q == TRACK_TYPE ==> NotEdited(Edits(s), q)
  {
    SettingNames();
    TrackTypeName();
    assert (ANCHOR + PRECISION)[0] == 's' && (ANCHOR + PRECISION)[1] == 'l';
    forall k | 0 <= k < |Edits(s)|
      ensures Read(q) || q == ANCHOR || q == PRECISION || q == TRACK_TYPE ==> Edits(s)[k].property != q
    {
      var p := Edits(s)[k].property;
      assert |p| > 6 && (p[0] == 'v' || (p[0] == 's' && p[1] == 'l' && p[4] == 'i') || (p[0] == 't' && p[6] == 'a'));
    }
  }

  /** All of preparation leaves the own lines of a name that is neither edited nor touched by the setting. */
  lemma PreparedLeavesOwn(source: string, s: Scenario, c: Irregularity, t: string, q: string)
    requires Writable(s) && Prepare(source, s, Some(c)) == Some(t)
    requires PropertyName(q) && NotEdited(Edits(s), q) && q != PRECISION
    requires TakesHold(SplitKeep(source)) || (q != ANCHOR && q != ANCHOR + PRECISION)
    ensures Own(SplitKeep(t), q) == Own(SplitKeep(source), q)
  {
    hide ReplaceAll, SetBinary64, Edits, PropertyName, Writable, Editable, TrackContract, Definitions, TakesHold, SplitKeep,
         Own, NotEdited;
    EditsAreEditable(s);
    EditsLeaveOwn(source, Edits(s), q);
    SettingLeavesOwn(ReplaceAll(source, Edits(s)).value, q);
  }

  /** A model that passed the track contract passes it still after it was prepared. */
  lemma PreparedKeepsContract(source: string, s: Scenario, c: Irregularity, t: string)
    requires Writable(s) && Prepare(source, s, Some(c)) == Some(t)
    ensures TrackContract(t, s.track, c)
  {
    hide ReplaceAll, SetBinary64, Edits, Expectations, ScopedIn, ValueIn, Read, Editable, Writable, Definitions, SplitKeep, Own,
         NotEdited, TakesHold;
    ExpectationsRead(s.track, c);
    var expected := Expectations(s.track, c);
    forall k | 0 <= k < |expected| ensures MeetsOne(t, expected[k]) {
      var e := expected[k];
      assert MeetsOne(source, e);
      EditNamesNot(s, e.property);
      ReadIsName(e.property);
      PreparedLeavesOwn(source, s, c, t, e.property);
      OwnDecides(SplitKeep(source), SplitKeep(t), e.property, e.owner);
    }
  }

  lemma ReadIsName(q: string)
    requires Read(q)
    ensures PropertyName(q)
  {
  }

  /** And it defines its track exactly once still. */
  lemma PreparedKeepsDefinition(source: string, s: Scenario, c: Irregularity, t: string)
    requires Writable(s) && Prepare(source, s, Some(c)) == Some(t)
    ensures Definitions(SplitKeep(t), s.track) == 1
  {
    TrackTypeName();
    SettingNames();
    ContinuedName();
    EditNamesNot(s, TRACK_TYPE);
    assert (ANCHOR + PRECISION)[0] == 's';
    hide ReplaceAll, SetBinary64, Edits, TrackContract, Writable, Definitions, SplitKeep, Own, NotEdited, TakesHold, PropertyName;
    PreparedLeavesOwn(source, s, c, t, TRACK_TYPE);
    DefinitionsByOwn(SplitKeep(source), s.track);
    DefinitionsByOwn(SplitKeep(t), s.track);
  }

  /** After a list of edits each property reads as its last edit, or as before when it has none. */
  lemma {:induction false} EditsRead(text: string, edits: seq<Edit>, q: string)
    requires PropertyName(q) && ReplaceAll(text, edits).Some? && Distinct(edits) && AllEditable(edits)
    ensures NotEdited(edits, q) ==> ValueOf(ReplaceAll(text, edits).value, q) == ValueOf(text, q)
    ensures forall k :: 0 <= k < |edits| && edits[k].property == q ==> ValueOf(ReplaceAll(text, edits).value, q) == Some(edits[k].value)
    decreases |edits|
  {
    hide Replace, ValueOf, EditableValue, PropertyName;
    if edits != [] {
      var first, rest := edits[0], edits[1..];
      assert Editable(first);
      assert forall k :: 0 <= k < |rest| ==> rest[k] == edits[k + 1];
      PutGet(text, first.property, first.value, q);
      EditsRead(Replace(text, first.property, first.value).value, rest, q);
      forall k | 0 <= k < |edits| && edits[k].property == q
        ensures ValueOf(ReplaceAll(text, edits).value, q) == Some(edits[k].value)
      {
        if k > 0 {
          assert rest[k - 1] == edits[k];
        }
      }
    }
  }

  /** The prepared model reads back every edited value; every other name the setting spares reads as before. */
  lemma PreparedReads(source: string, s: Scenario, c: Irregularity, t: string, q: string)
    requires Writable(s) && Prepare(source, s, Some(c)) == Some(t) && PropertyName(q) && q != PRECISION
    requires TakesHold(SplitKeep(source)) || (q != ANCHOR && q != ANCHOR + PRECISION)
    ensures forall k :: 0 <= k < |Edits(s)| && Edits(s)[k].property == q ==> ValueOf(t, q) == Some(Edits(s)[k].value)
    ensures NotEdited(Edits(s), q) ==> ValueOf(t, q) == ValueOf(source, q)
  {
    hide ReplaceAll, SetBinary64, Edits, ValueOf, PropertyName, Writable, Editable, TrackContract, Definitions, TakesHold,
         SplitKeep, Own, NotEdited;
    EditsAreEditable(s);
    EditsAreDistinct(s);
    EditsRead(source, Edits(s), q);
    TakesHoldThroughEdits(source, s);
    SettingLeavesOthers(ReplaceAll(source, Edits(s)).value, q, "");
  }

  lemma EditNamesSpared(s: Scenario)
    ensures forall k :: 0 <= k < |Edits(s)| ==>
              Edits(s)[k].property != PRECISION && Edits(s)[k].property != ANCHOR && Edits(s)[k].property != ANCHOR + PRECISION
  {
    SettingNames();
    assert (ANCHOR + PRECISION)[0] == 's' && (ANCHOR + PRECISION)[4] == 'm';
    forall k | 0 <= k < |Edits(s)|
      ensures Edits(s)[k].property != PRECISION && Edits(s)[k].property != ANCHOR && Edits(s)[k].property != ANCHOR + PRECISION
    {
      var p := Edits(s)[k].property;
      assert p[0] != 's' || p[4] == 'i';
    }
  }

  /** The six values a prepared model reads back, each under its own name. */
  lemma PreparedValues(source: string, s: Scenario, c: Irregularity, t: string)
    requires Writable(s) && Prepare(source, s, Some(c)) == Some(t)
    ensures ValueOf(t, "track.active") == Some(s.track)
    ensures ValueOf(t, "vehicle.startvel") == Some("{ " + s.speed + "/3.6 }")
    ensures ValueOf(t, "vehicle.applystartvel") == Some("1")
    ensures ValueOf(t, "slv.integ.meetop") == Some(if s.meetOutputPoints then "1" else "0")
    ensures ValueOf(t, "slv.integ.tend.time") == Some("{ " + s.duration + " s }")
    ensures ValueOf(t, "slv.integ.tout.freq") == Some("{ " + s.frequency + " Hz }")
  {
    hide ReplaceAll, SetBinary64, ValueOf, PropertyName, Writable, TrackContract, Definitions, TakesHold, SplitKeep, NotEdited;
    EditNamesSpared(s);
    EditsAreWritten(s);
    forall k | 0 <= k < 6 ensures ValueOf(t, Edits(s)[k].property) == Some(Edits(s)[k].value) {
      PreparedReads(source, s, c, t, Edits(s)[k].property);
    }
    var edits := Edits(s);
    assert ValueOf(t, edits[0].property) == Some(edits[0].value) && ValueOf(t, edits[1].property) == Some(edits[1].value);
    assert ValueOf(t, edits[2].property) == Some(edits[2].value) && ValueOf(t, edits[3].property) == Some(edits[3].value);
    assert ValueOf(t, edits[4].property) == Some(edits[4].value) && ValueOf(t, edits[5].property) == Some(edits[5].value);
  }

  lemma EditsAreWritten(s: Scenario)
    ensures forall k :: 0 <= k < |Edits(s)| ==> PropertyName(Edits(s)[k].property)
  {
    VehicleNames();
    IntegratorNames();
  }

  lemma TakesHoldThroughEdits(source: string, s: Scenario)
    requires Writable(s) && ReplaceAll(source, Edits(s)).Some?
    ensures TakesHold(SplitKeep(ReplaceAll(source, Edits(s)).value)) <==> TakesHold(SplitKeep(source))
    ensures Own(SplitKeep(ReplaceAll(source, Edits(s)).value), ANCHOR) == Own(SplitKeep(source), ANCHOR)
  {
    SettingNames();
    EditNamesNot(s, ANCHOR);
    hide ReplaceAll, Edits, Writable, Editable, TakesHold, SplitKeep, Own, NotEdited, PropertyName;
    EditsAreEditable(s);
    EditsLeaveOwn(source, Edits(s), ANCHOR);
  }

  /** The precision reads back as 1 exactly when the setting takes hold in the source. */
  lemma PreparedPrecision(source: string, s: Scenario, c: Irregularity, t: string)
    requires Writable(s) && Prepare(source, s, Some(c)) == Some(t)
    ensures ValueOf(t, PRECISION) == Some("1") <==> TakesHold(SplitKeep(source))
  {
    hide ReplaceAll, SetBinary64, Edits, ValueOf, Writable, TrackContract, Definitions, TakesHold, SplitKeep;
    TakesHoldThroughEdits(source, s);
    SettingReadsBack(ReplaceAll(source, Edits(s)).value);
  }

  /** Where it does not, the anchor's property keeps its value if and only if its line in the source is closed. */
  lemma PreparedAnchor(source: string, s: Scenario, c: Irregularity, t: string)
    requires Writable(s) && Prepare(source, s, Some(c)) == Some(t) && !TakesHold(SplitKeep(source))
    ensures |Own(SplitKeep(source), ANCHOR)| == 1
    ensures ValueOf(t, ANCHOR) == ValueOf(source, ANCHOR) <==> Closed(Own(SplitKeep(source), ANCHOR)[0])
  {
    var edited := ReplaceAll(source, Edits(s)).value;
    hide ReplaceAll, SetBinary64, Edits, ValueIn, Writable, TrackContract, Definitions, TakesHold, SplitKeep, Own, Closed;
    TakesHoldThroughEdits(source, s);
    AnchorKeepsValueIff(edited);
    SettingNames();
    hide PropertyName;
    OwnDecides(SplitKeep(source), SplitKeep(edited), ANCHOR, "");
  }

  lemma {:induction false} SettledEdits(text: string, edits: seq<Edit>)
    requires forall k :: 0 <= k < |edits| ==> ValueOf(text, edits[k].property) == Some(edits[k].value)
    ensures ReplaceAll(text, edits) == Some(text)
  {
    hide Replace, ValueOf;
    if edits != [] {
      GetPut(text, edits[0].property, edits[0].value);
      SettledEdits(text, edits[1..]);
    }
  }

  /** Preparing a prepared model succeeds and changes nothing exactly when the setting takes hold in the source. */
  lemma PreparedTwice(source: string, s: Scenario, c: Irregularity, t: string)
    requires Writable(s) && Prepare(source, s, Some(c)) == Some(t)
    ensures Prepare(t, s, Some(c)) == Some(t) <==> TakesHold(SplitKeep(source))
  {
    hide ReplaceAll, SetBinary64, Edits, ValueOf, PropertyName, Writable, Editable, TrackContract, TakesHold, SplitKeep,
         Definitions;
    PreparedKeepsContract(source, s, c, t);
    PreparedKeepsDefinition(source, s, c, t);
    EditsAreEditable(s);
    EditNamesSpared(s);
    TakesHoldThroughEdits(source, s);
    forall k | 0 <= k < |Edits(s)| ensures ValueOf(t, Edits(s)[k].property) == Some(Edits(s)[k].value) {
      assert Editable(Edits(s)[k]);
      EditableIsName(Edits(s)[k]);
      PreparedReads(source, s, c, t, Edits(s)[k].property);
    }
    SettledEdits(t, Edits(s));
    SettingTwice(ReplaceAll(source, Edits(s)).value);
  }

  lemma EditableIsName(e: Edit)
    requires Editable(e)
    ensures PropertyName(e.property)
  {
  }
}

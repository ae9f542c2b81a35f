/** The assignments the realtime arm really writes, and models its writer accepts and its reader rejects. */
module RealtimeDictionary {
  import opened Wrappers
  import opened TextLines
  import opened ModelEditor
  import opened HistoricalLines
  import opened RealtimeModel
  import opened WriterReader

  /** The fixed assignments, then the start speed and the active track. */
  function Assignments(speed: string, track: string): seq<Edit> {
    [Edit("vehicle.applystartvel", "1"),
     Edit("slv.integ.type", "5"),
     Edit("slv.integ.meetop", "1"),
     Edit("slv.integ.fix.h", "1.00000000000000002E-03"),
     Edit("slv.integ.tend.time", "{ 45 s }"),
     Edit("slv.rt.enable", "1"),
     Edit("slv.rt.stepsize", "1.00000000000000002E-03"),
     Edit("slv.rt.log.rate", "0"),
     Edit("vehicle.startvel", "{ " + speed + "/3.6 }"),
     Edit("track.active", track)]
  }

  /** The historical excitation, one value for each key. */
  function Historical(): map<Keyed, string> {
    map[Keyed("subvar.str", None, "$_AAR5IrregStart") := "'50'",
        Keyed("subvar.str", None, "$_AAR5IrregEnd") := "'3000'",
        Keyed("subvar.str", None, "$_AAR5IrregFade") := "'50'",
        Keyed("excit.par", Some(2), "$E_AAR5_LAT") := "2.00000000000000000E+00",
        Keyed("excit.par", Some(5), "$E_AAR5_LAT") := "6.56000000000000028E-01",
        Keyed("excit.par", Some(6), "$E_AAR5_LAT") := "2.40000000000000005E-02",
        Keyed("excit.par", Some(2), "$E_AAR5_VER") := "2.00000000000000000E+00",
        Keyed("excit.par", Some(5), "$E_AAR5_VER") := "6.56000000000000028E-01",
        Keyed("excit.par", Some(6), "$E_AAR5_VER") := "2.40000000000000005E-02"]
  }

  function KeyedValues(useHistorical: bool): map<Keyed, string> {
    if useHistorical then Historical() else map[]
  }

  lemma VehicleNames()
    ensures PropertyName("vehicle.applystartvel") && PropertyName("vehicle.startvel") && PropertyName("track.active")
  {
  }

  lemma IntegratorNames()
    ensures PropertyName("slv.integ.type") && PropertyName("slv.integ.meetop") && PropertyName("slv.integ.fix.h")
    ensures PropertyName("slv.integ.tend.time")
  {
  }

  lemma RealtimeNames()
    ensures PropertyName("slv.rt.enable") && PropertyName("slv.rt.stepsize") && PropertyName("slv.rt.log.rate")
  {
  }

  lemma FixedValues()
    ensures EditableValue("1") && EditableValue("5") && EditableValue("0") && EditableValue("{ 45 s }")
    ensures EditableValue("1.00000000000000002E-03")
  {
  }

  lemma NamesDiffer(speed: string, track: string)
    ensures Distinct(Assignments(speed, track))
  {
    var edits := Assignments(speed, track);
    assert |edits[0].property| == 21 && |edits[1].property| == 14 && |edits[2].property| == 16 && |edits[3].property| == 15;
    assert |edits[4].property| == 19 && |edits[5].property| == 13 && |edits[6].property| == 15 && |edits[7].property| == 15;
    assert |edits[8].property| == 16 && |edits[9].property| == 12;
    assert edits[3].property[4] == 'i' && edits[6].property[4] == 'r' && edits[7].property[4] == 'r';
    assert edits[6].property[7] == 's' && edits[7].property[7] == 'l';
    assert edits[2].property[0] == 's' && edits[8].property[0] == 'v';
  }

  /** The real assignments are a dictionary, so no line belongs to two of them. */
  lemma AssignmentsAreDictionary(speed: string, track: string)
    requires Clean(speed) && EditableValue(track)
    ensures Dictionary(Assignments(speed, track))
  {
    hide PropertyName, EditableValue, Distinct, Assignments;
    AssignmentNames(speed, track);
    AssignmentValues(speed, track);
    NamesDiffer(speed, track);
  }

  lemma AssignmentNames(speed: string, track: string)
    ensures forall e :: e in Assignments(speed, track) ==> PropertyName(e.property) && |e.property| >= 12
  {
    hide PropertyName;
    VehicleNames();
    IntegratorNames();
    RealtimeNames();
  }

  lemma AssignmentValues(speed: string, track: string)
    requires Clean(speed) && EditableValue(track)
    ensures forall e :: e in Assignments(speed, track) ==> EditableValue(e.value)
  {
    hide EditableValue, Clean;
    FixedValues();
    BracedIsEditable("{ ", speed, "/3.6 }");
  }

  lemma HistoricalNames(k: Keyed)
    requires k in Historical()
    ensures |k.property| <= 10 && OneLine(Historical()[k])
  {
    assert |"subvar.str"| == 10 && |"excit.par"| == 9;
    assert OneLine("'50'") && OneLine("'3000'");
    assert OneLine("2.00000000000000000E+00") && OneLine("6.56000000000000028E-01") && OneLine("2.40000000000000005E-02");
    hide OneLine;
  }

  /** No historical property is among them, in either mode. */
  lemma HistoricalApart(speed: string, track: string, useHistorical: bool)
    ensures KeysApart(Assignments(speed, track), KeyedValues(useHistorical))
  {
    hide Assignments, Historical, OneLine, PropertyName;
    AssignmentNames(speed, track);
    forall k | k in KeyedValues(useHistorical)
      ensures OneLine(KeyedValues(useHistorical)[k]) && |k.property| <= 10
    {
      HistoricalNames(k);
    }
  }

  /** In either mode, what the arm wrote is read back exactly when no line is the bare name. */
  lemma ArmReadsWritten(text: string, speed: string, track: string, useHistorical: bool, out: string, e: Edit)
    requires Clean(speed) && EditableValue(track) && e in Assignments(speed, track)
    requires PrepareModel(text, Assignments(speed, track), track, KeyedValues(useHistorical)) == Some(out)
    ensures ReadValue(out, e.property) == Some(e.value) <==> NoBareName(text, e.property)
  {
    hide PrepareModel, Assignments, KeyedValues, ReadValue, NoBareName, EditableValue, Clean, Dictionary, KeysApart;
    AssignmentsAreDictionary(speed, track);
    HistoricalApart(speed, track, useHistorical);
    ReadsWritten(text, Assignments(speed, track), track, KeyedValues(useHistorical), out, e);
  }

  // ----- for every dictionary and each of its names, a model the reader rejects

  function Plainly(e: Edit): string { e.property + " = 0" }

  /** A bare name, a comment that mentions the track, and one assignment of each name. */
  function BareModel(edits: seq<Edit>, bare: string, track: string): (r: seq<string>)
    ensures |r| == |edits| + 2 && r[0] == bare && r[1] == "! " + track
    ensures forall i :: 0 <= i < |edits| ==> r[i + 2] == Plainly(edits[i])
  {
    [bare, "! " + track] + seq(|edits|, i requires 0 <= i < |edits| => Plainly(edits[i]))
  }

  lemma NameView(p: string)
    requires PropertyName(p)
    ensures Lstrip(p) == p && Strip(p) == p && OneLine(p) && forall i :: 0 <= i < |p| ==> !EndsName(p[i]) && p[i] != '!'
    ensures p != "" && !IsBlank(p[0])
  {
    LstripStays(p);
    RstripStays(p);
  }

  /** A bare name is nobody's line for the writer. */
  lemma BareIsUntouched(bare: string, edits: seq<Edit>)
    requires PropertyName(bare) && Dictionary(edits)
    ensures TargetOf(bare, edits, map[]) == Untouched
  {
    NameView(bare);
    hide EndsName, Lstrip, PropertyName, EditableValue, KeyOf;
    NoEdit(bare, edits);
  }

  lemma {:induction false} NoEdit(line: string, edits: seq<Edit>)
    requires forall e :: e in edits ==> !WriterLine(line, e.property)
    ensures EditFor(line, edits).None?
  {
    hide WriterLine;
    if edits != [] {
      NoEdit(line, edits[1..]);
    }
  }

  lemma CommentIsUntouched(track: string, edits: seq<Edit>)
    requires Dictionary(edits)
    ensures TargetOf("! " + track, edits, map[]) == Untouched
  {
    var line := "! " + track;
    assert line[0] == '!';
    LstripStays(line);
    forall e | e in edits ensures !WriterLine(line, e.property) {
      NameView(e.property);
    }
    hide WriterLine, Lstrip, KeyOf;
    NoEdit(line, edits);
  }

  lemma PlainlyIsItsOwn(e: Edit, edits: seq<Edit>)
    requires Dictionary(edits) && e in edits
    ensures TargetOf(Plainly(e), edits, map[]) == ByName(e) && Rewritten(Plainly(e), e.value).Some?
    ensures OneLine(Plainly(e))
  {
    hide WriterLine, Rewritten, KeyOf, PropertyName, EditableValue, OneLine, Plainly, Distinct, EditFor;
    PlainlyWrites(e);
    EditForIs(Plainly(e), edits, e);
  }

  lemma PlainlyWrites(e: Edit)
    requires PropertyName(e.property)
    ensures WriterLine(Plainly(e), e.property) && Rewritten(Plainly(e), e.value).Some? && OneLine(Plainly(e))
  {
    var p, line := e.property, Plainly(e);
    NameView(p);
    NameOf(p);
    OneLineParts(p);
    hide OneLine, PropertyName, Strip, EndsName;
    assert line[0] == p[0] && line[|p|] == ' ' && line[|p| + 1] == '=' && p <= line;
    assert forall i :: 0 <= i < |p| ==> line[i] == p[i];
    LstripStays(line);
    FindIs(line, '=', 0, |p| + 1);
    assert EndsName(' ') by { SpaceEnds(); }
    hide Lstrip, Find, Assigned, Commented;
  }

  lemma SpaceEnds()
    ensures EndsName(' ')
  {
  }

  lemma OneLineParts(p: string)
    requires OneLine(p)
    ensures OneLine(p + " = 0")
  {
    assert OneLine(" = 0");
    forall i | 0 <= i < |p + " = 0"| ensures (p + " = 0")[i] != '\n' {
      assert (p + " = 0")[i] == if i < |p| then p[i] else " = 0"[i - |p|];
    }
  }

  lemma {:induction false} AllTransform(lines: seq<string>, edits: seq<Edit>)
    requires forall i :: 0 <= i < |lines| ==> Transformed(lines[i], TargetOf(lines[i], edits, map[]), map[]).Some?
    ensures TransformAll(lines, edits, map[]).Some?
  {
    hide Transformed, TargetOf;
    if lines != [] {
      AllTransform(lines[..|lines| - 1], edits);
    }
  }

  lemma OnlyOnce(targets: seq<Target>, t: Target, at: nat)
    requires at < |targets| && targets[at] == t && forall i :: 0 <= i < |targets| && i != at ==> targets[i] != t
    ensures multiset(targets)[t] == 1
  {
    var before, after := targets[..at], targets[at + 1..];
    assert targets == before + [t] + after;
    assert t !in before && t !in after;
  }

  /** What the writer does with one line of that model. */
  lemma BareModelLine(edits: seq<Edit>, e: Edit, track: string, i: nat)
    requires Dictionary(edits) && e in edits && OneLine(track) && i < |edits| + 2
    ensures PropertyName(e.property)
    ensures var line := BareModel(edits, e.property, track)[i];
            && OneLine(line) && TargetOf(line, edits, map[]) == (if i < 2 then Untouched else ByName(edits[i - 2]))
            && Transformed(line, TargetOf(line, edits, map[]), map[]).Some?
  {
    var line := BareModel(edits, e.property, track)[i];
    assert PropertyName(e.property);
    hide TargetOf, Transformed, PropertyName, EditableValue, OneLine, Distinct, Rewritten, Dictionary, BareModel;
    BareModelIs(edits, e.property, track, i);
    if i == 0 {
      NameView(e.property);
      BareIsUntouched(e.property, edits);
      UntouchedStays(line);
    } else if i == 1 {
      CommentOneLine(track);
      CommentIsUntouched(track, edits);
      UntouchedStays(line);
    } else {
      PlainlyIsItsOwn(edits[i - 2], edits);
      ByNameRewrites(line, edits[i - 2]);
    }
  }

  lemma BareModelIs(edits: seq<Edit>, bare: string, track: string, i: nat)
    requires i < |edits| + 2
    ensures BareModel(edits, bare, track)[i] == if i == 0 then bare else if i == 1 then "! " + track else Plainly(edits[i - 2])
  {
    hide Plainly;
    var r := BareModel(edits, bare, track);
    if i >= 2 {
      assert r[(i - 2) + 2] == Plainly(edits[i - 2]);
    }
  }

  lemma BareModelTargets(edits: seq<Edit>, e: Edit, track: string)
    requires Dictionary(edits) && e in edits && OneLine(track)
    ensures PropertyName(e.property)
    ensures var lines := BareModel(edits, e.property, track);
            && lines != [] && lines[0] == e.property && (forall i :: 0 <= i < |lines| ==> OneLine(lines[i]))
            && TransformAll(lines, edits, map[]).Some? && EachOnce(Targets(lines, edits, map[]), edits, map[])
  {
    var lines := BareModel(edits, e.property, track);
    hide TargetOf, Transformed, PropertyName, OneLine, Dictionary, BareModel, EachOnce, TransformAll, Targets;
    forall i | 0 <= i < |lines|
      ensures OneLine(lines[i]) && TargetOf(lines[i], edits, map[]) == (if i < 2 then Untouched else ByName(edits[i - 2]))
      ensures Transformed(lines[i], TargetOf(lines[i], edits, map[]), map[]).Some?
    {
      BareModelLine(edits, e, track, i);
    }
    BareModelLine(edits, e, track, 0);
    AllTransform(lines, edits);
    BareModelOnce(lines, edits);
  }

  lemma ByNameRewrites(line: string, e: Edit)
    ensures Transformed(line, ByName(e), map[]) == Rewritten(line, e.value)
  {
  }

  lemma UntouchedStays(line: string)
    ensures Transformed(line, Untouched, map[]) == Some(line)
  {
  }

  lemma CommentOneLine(track: string)
    requires OneLine(track)
    ensures OneLine("! " + track)
  {
  }

  lemma BareModelOnce(lines: seq<string>, edits: seq<Edit>)
    requires |lines| == |edits| + 2 && Dictionary(edits)
    requires forall i :: 0 <= i < |lines| ==>
               TargetOf(lines[i], edits, map[]) == if i < 2 then Untouched else ByName(edits[i - 2])
    ensures EachOnce(Targets(lines, edits, map[]), edits, map[])
  {
    hide TargetOf, PropertyName, EditableValue;
    var targets := Targets(lines, edits, map[]);
    forall i | 0 <= i < |edits| ensures multiset(targets)[ByName(edits[i])] == 1 {
      forall j | 0 <= j < |targets| && j != i + 2 ensures targets[j] != ByName(edits[i]) {
        if j >= 2 {
          assert edits[j - 2].property != edits[i].property;
        }
      }
      OnlyOnce(targets, ByName(edits[i]), i + 2);
    }
  }

  lemma BareModelMentions(edits: seq<Edit>, bare: string, track: string)
    ensures Mentions(BareModel(edits, bare, track), track)
  {
    var lines := BareModel(edits, bare, track);
    assert ("! " + track)[2..2 + |track|] == track;
    assert StartsAt(lines[1], track, 2);
    assert Contains(lines[1], track);
  }

  /** For every dictionary and each of its names there is a model the writer accepts and the reader rejects. */
  lemma BareNameIsUnreadable(edits: seq<Edit>, e: Edit, track: string)
    requires Dictionary(edits) && e in edits && OneLine(track)
    ensures var text := JoinLines(BareModel(edits, e.property, track));
            var out := PrepareModel(text, edits, track, map[]);
            out.Some? && ReadValue(out.value, e.property) != Some(e.value)
  {
    hide PrepareModel, Dictionary, OneLine, ReadValue, JoinLines, PropertyName, BareModel, NoBareName, KeysApart;
    BareModelIsWritten(edits, e, track);
    NothingKeyed(edits);
    var text := JoinLines(BareModel(edits, e.property, track));
    ReadsWritten(text, edits, track, map[], PrepareModel(text, edits, track, map[]).value, e);
  }

  lemma BareModelIsWritten(edits: seq<Edit>, e: Edit, track: string)
    requires Dictionary(edits) && e in edits && OneLine(track)
    ensures var text := JoinLines(BareModel(edits, e.property, track));
            PrepareModel(text, edits, track, map[]).Some? && !NoBareName(text, e.property)
  {
    hide TransformAll, EachOnce, Targets, Mentions, Dictionary, OneLine, JoinLines, PropertyName, BareModel, NoBareName,
         PrepareModel;
    var lines := BareModel(edits, e.property, track);
    BareModelTargets(edits, e, track);
    BareModelMentions(edits, e.property, track);
    AcceptsLines(lines, edits, track);
    BareIsBare(lines, e.property);
  }

  lemma AcceptsLines(lines: seq<string>, edits: seq<Edit>, track: string)
    requires lines != [] && (forall i :: 0 <= i < |lines| ==> OneLine(lines[i])) && Mentions(lines, track)
    requires TransformAll(lines, edits, map[]).Some? && EachOnce(Targets(lines, edits, map[]), edits, map[])
    ensures PrepareModel(JoinLines(lines), edits, track, map[]).Some?
  {
    hide TransformAll, EachOnce, Targets, Mentions, OneLine, JoinLines, Plain, SplitKeep;
    WrittenSplits(lines);
  }

  lemma BareIsBare(lines: seq<string>, p: string)
    requires lines != [] && lines[0] == p && PropertyName(p) && forall i :: 0 <= i < |lines| ==> OneLine(lines[i])
    ensures !NoBareName(JoinLines(lines), p)
  {
    hide OneLine, JoinLines, Plain, SplitKeep, PropertyName, Strip;
    NameView(p);
    WrittenSplits(lines);
    assert Strip(Plain(SplitKeep(JoinLines(lines)))[0]) == p;
  }

  lemma NothingKeyed(edits: seq<Edit>)
    ensures KeysApart(edits, map[])
  {
  }

  /** So it is of the assignments the arm really writes. */
  lemma ArmCanBeUnreadable(speed: string, track: string, e: Edit)
    requires Clean(speed) && EditableValue(track) && e in Assignments(speed, track)
    ensures var text := JoinLines(BareModel(Assignments(speed, track), e.property, track));
            var out := PrepareModel(text, Assignments(speed, track), track, map[]);
            out.Some? && ReadValue(out.value, e.property) != Some(e.value)
  {
    hide PrepareModel, Assignments, ReadValue, Clean, Dictionary, JoinLines;
    AssignmentsAreDictionary(speed, track);
    EditableIsOneLine(track);
    hide EditableValue, OneLine;
    BareNameIsUnreadable(Assignments(speed, track), e, track);
  }
}

/** The result-precision setting: edited when present, inserted after its anchor when not. */
module ResultSettings {
  import opened Wrappers
  import opened TextLines
  import opened ModelEditor
  import opened ScopedAssignments

  const PRECISION := "slv.meas.prec.dbl"
  const ANCHOR := "slv.meas.result"

  /** The inserted line, cut as an assignment is. */
  function SettingParts(): Parts {
    Parts(PRECISION + SettingObject(), " 1" + Blanks(23), "! Result file in double precision\n")
  }

  function SettingObject(): string { " (" + Blanks(17) + "$SLV_SolverSettings" + Blanks(11) + ") =" }

  function Setting(): string { SettingParts().Line() }

  /** None where the code raises. */
  function SetBinary64(text: string): Option<string> {
    var lines := SplitKeep(text);
    var matches := Matches(lines, PRECISION);
    if |matches| == 1 then Replace(text, PRECISION, "1")
    else if |matches| != 0 then None
    else
      var anchors := Matches(lines, ANCHOR);
      if |anchors| != 1 then None else Some(Join(Inserted(lines, anchors[0] + 1, Setting())))
  }

  function Inserted(lines: seq<string>, at: nat, line: string): seq<string>
    requires at <= |lines|
  {
    lines[..at] + [line] + lines[at..]
  }

  method CountAssignments(lines: seq<string>, p: string) returns (count: nat)
    requires PropertyName(p)
    ensures count == |Matches(lines, p)|
  {
    hide AssignmentLine, PropertyName, Body;
    count := 0;
    for i := 0 to |lines|
      invariant count == |Matches(lines[..i], p)|
    {
      assert lines[..i + 1][..i] == lines[..i];
      MatchWithoutNewline(lines[i], p);
      if AssignmentLine(Body(lines[i]), p) {
        count := count + 1;
      }
    }
    assert lines[..|lines|] == lines;
  }

  method SetBinary64Results(text: string) returns (r: Option<string>)
    ensures r == SetBinary64(text)
  {
    hide Matches, Replace, Setting, SplitKeep, Join, PropertyName;
    SettingNames();
    var lines := SplitKeep(text);
    var matches := CountAssignments(lines, PRECISION);
    if matches == 1 {
      r := ReplaceAssignment(text, PRECISION, "1");
      return;
    }
    if matches != 0 {
      return None;
    }
    var anchors := CollectMatches(lines, ANCHOR);
    if |anchors| != 1 {
      return None;
    }
    lines := lines[..anchors[0] + 1] + [Setting()] + lines[anchors[0] + 1..];
    r := Some(Join(lines));
  }

  // ----- the inserted line

  lemma SettingNames()
    ensures PropertyName(PRECISION) && PropertyName(ANCHOR) && EditableValue("1")
    ensures |PRECISION| == 17 && |ANCHOR| == 15 && PRECISION[9] != ANCHOR[9] && ANCHOR[0] == 's' && ANCHOR[1] == 'l'
    ensures PRECISION[0] == 's' && PRECISION[1] == 'l' && PRECISION[4] == 'm' && ANCHOR[4] == 'm'
  {
  }

  lemma LacksConcat(a: string, b: string, c: char)
    ensures Lacks(a + b, c) <==> Lacks(a, c) && Lacks(b, c)
  {
    if Lacks(a + b, c) {
      forall i | 0 <= i < |a| ensures a[i] != c { assert a[i] == (a + b)[i]; }
      forall i | 0 <= i < |b| ensures b[i] != c { assert b[i] == (a + b)[|a| + i]; }
    }
  }

  lemma PiecesLack(c: char)
    requires c == '=' || c == '\n' || c == '!'
    ensures Lacks(PRECISION, c) && Lacks(" (", c) && Lacks("$SLV_SolverSettings", c) && Lacks(") ", c)
  {
  }

  lemma HeadLacks(c: char)
    requires c == '=' || c == '\n' || c == '!'
    ensures Lacks(PRECISION + " (" + Blanks(17) + "$SLV_SolverSettings" + Blanks(11) + ") ", c)
  {
    PiecesLack(c);
    var b, d := Blanks(17), Blanks(11);
    assert Lacks(b, c) && Lacks(d, c);
    hide Lacks, Blanks;
    LacksConcat(PRECISION, " (", c);
    LacksConcat(PRECISION + " (", b, c);
    LacksConcat(PRECISION + " (" + b, "$SLV_SolverSettings", c);
    LacksConcat(PRECISION + " (" + b + "$SLV_SolverSettings", d, c);
    LacksConcat(PRECISION + " (" + b + "$SLV_SolverSettings" + d, ") ", c);
  }

  lemma HeadRegroups(b: string, s: string, d: string)
    ensures PRECISION + (" (" + b + s + d + ") =") == PRECISION + " (" + b + s + d + ") " + "="
  {
    assert ") =" == ") " + "=";
  }

  lemma HeadFromLacks(stem: string)
    requires Lacks(stem, '=') && Lacks(stem, '\n')
    ensures IsHead(stem + "=")
  {
  }

  lemma SettingShaped()
    ensures Shaped(SettingParts()) && Terminated(SettingParts().tail)
  {
    HeadLacks('=');
    HeadLacks('\n');
    HeadRegroups(Blanks(17), "$SLV_SolverSettings", Blanks(11));
    HeadFromLacks(PRECISION + " (" + Blanks(17) + "$SLV_SolverSettings" + Blanks(11) + ") ");
    hide Lacks, IsHead, Blanks;
  }

  lemma SettingIsItsOwn()
    ensures AssignmentLine(SettingParts().head, PRECISION)
  {
    hide Blanks;
    var head := SettingParts().head;
    var owner := SettingObject();
    assert owner != "" && owner[0] == ' ';
    hide SettingObject;
    assert head == PRECISION + owner && head[0] == 's' && head[|PRECISION|] == ' ';
    LstripStays(head);
  }

  /** The inserted line is a terminated line of the precision property alone, and its value is 1. */
  lemma SettingFacts()
    ensures IsLine(Setting()) && Terminated(Setting())
    ensures Dissect(Setting()) == Some(SettingParts()) && Strip(SettingParts().field) == "1"
    ensures forall q :: PropertyName(q) ==> (AssignmentLine(Setting(), q) <==> q == PRECISION)
  {
    hide Shaped, AssignmentLine, Dissect, IsLine, Terminated, PropertyName, Blanks, Strip;
    SettingNames();
    SettingShaped();
    ShapedDissects(SettingParts());
    SettingIsItsOwn();
    MatchByHead(SettingParts(), PRECISION);
    forall q | PropertyName(q) ensures AssignmentLine(Setting(), q) <==> q == PRECISION {
      if AssignmentLine(Setting(), q) {
        OneProperty(Setting(), q, PRECISION);
      }
    }
    SettingValue(Blanks(23));
  }

  lemma SettingIsLine()
    ensures IsLine(Setting()) && Terminated(Setting())
  {
    hide Setting, IsLine, Terminated, Dissect, AssignmentLine, PropertyName, SettingParts, Strip;
    SettingFacts();
  }

  lemma SettingValue(b: string)
    requires forall i :: 0 <= i < |b| ==> b[i] == ' '
    ensures Strip(" 1" + b) == "1"
  {
    assert " 1" + b == " " + "1" + b;
    StripBetween(" ", "1", b);
  }

  // ----- joining with an inserted line

  lemma {:induction false} JoinConcat(a: seq<string>, b: seq<string>)
    ensures Join(a + b) == Join(a) + Join(b)
  {
    if a == [] {
      assert a + b == b;
    } else {
      assert (a + b)[1..] == a[1..] + b;
      JoinConcat(a[1..], b);
    }
  }

  lemma JoinOne(line: string)
    ensures Join([line]) == line
  {
    assert [line][1..] == [];
    assert Join([line]) == line + "" == line;
  }

  lemma InsertedLonger(lines: seq<string>, at: nat, line: string)
    requires at <= |lines|
    ensures |Join(Inserted(lines, at, line))| == |Join(lines)| + |line|
  {
    JoinConcat(lines[..at] + [line], lines[at..]);
    JoinConcat(lines[..at], [line]);
    JoinOne(line);
    JoinConcat(lines[..at], lines[at..]);
    assert lines[..at] + lines[at..] == lines;
  }

  /** Inserted after a line without newline, the new line continues that line. */
  lemma InsertedMerges(lines: seq<string>, line: string)
    requires lines != []
    ensures var last := |lines| - 1;
            Join(Inserted(lines, |lines|, line)) == Join(lines[..last] + [lines[last] + line])
  {
    hide Join;
    var last := |lines| - 1;
    assert Inserted(lines, |lines|, line) == lines[..last] + [lines[last]] + [line];
    JoinConcat(lines[..last] + [lines[last]], [line]);
    JoinConcat(lines[..last], [lines[last]]);
    JoinConcat(lines[..last], [lines[last] + line]);
    JoinOne(line);
    JoinOne(lines[last]);
    JoinOne(lines[last] + line);
  }

  /** The lines of the text after an insertion behind line `at`. */
  function After(lines: seq<string>, at: nat, line: string): seq<string>
    requires at < |lines|
  {
    if Terminated(lines[at]) then Inserted(lines, at + 1, line) else lines[..at] + [lines[at] + line]
  }

  lemma InsertedSplits(lines: seq<string>, at: nat, line: string)
    requires WellFormed(lines) && at < |lines| && IsLine(line) && Terminated(line)
    ensures SplitKeep(Join(Inserted(lines, at + 1, line))) == After(lines, at, line)
  {
    AfterWellFormed(lines, at, line);
    hide Terminated, IsLine, SplitKeep, Inserted;
    SplitJoin(After(lines, at, line));
    if !Terminated(lines[at]) {
      InsertedMerges(lines, line);
    }
  }

  lemma AfterWellFormed(lines: seq<string>, at: nat, line: string)
    requires WellFormed(lines) && at < |lines| && IsLine(line) && Terminated(line)
    ensures WellFormed(After(lines, at, line)) && (!Terminated(lines[at]) ==> at == |lines| - 1)
  {
    if Terminated(lines[at]) {
      hide IsLine, Terminated;
      var after := After(lines, at, line);
      forall i | 0 <= i < |after|
        ensures IsLine(after[i]) && (i < |after| - 1 ==> Terminated(after[i]))
      {
        assert after[i] == if i <= at then lines[i] else if i == at + 1 then line else lines[i - 1];
      }
    } else {
      LinesMerge(lines[at], line);
    }
  }

  lemma LinesMerge(a: string, b: string)
    requires IsLine(a) && !Terminated(a) && IsLine(b) && Terminated(b)
    ensures IsLine(a + b) && Terminated(a + b)
  {
  }

  // ----- what the setting leaves alone

  /** The name an anchor line has once the setting continues it. */
  function Continued(line: string): string {
    if Lstrip(line) == ANCHOR then ANCHOR + PRECISION else ANCHOR
  }

  lemma AnchorView(line: string)
    requires AssignmentLine(line, ANCHOR)
    ensures !AllBlank(line) && ANCHOR <= Lstrip(line)
  {
    if AllBlank(line) {
      StripBlank(line);
      assert false;
    }
  }

  lemma StripBlank(s: string)
    requires AllBlank(s)
    ensures Lstrip(s) == ""
  {
    LstripBlanks(s, "");
    assert s + "" == s;
  }

  lemma ContinuedName()
    ensures PropertyName(ANCHOR + PRECISION) && ANCHOR + PRECISION != ANCHOR && ANCHOR + PRECISION != PRECISION
  {
    SettingNames();
    assert |ANCHOR + PRECISION| == 32;
  }

  /** An anchor line the setting continues is a line of exactly one name. */
  lemma ContinuedOwner(line: string, q: string)
    requires AssignmentLine(line, ANCHOR) && PropertyName(q)
    ensures AssignmentLine(line + Setting(), q) <==> q == Continued(line)
  {
    hide Setting, PropertyName, AssignmentLine;
    SettingNames();
    ContinuedName();
    ContinuedMatches(line);
    if AssignmentLine(line + Setting(), q) {
      OneProperty(line + Setting(), q, Continued(line));
    }
  }

  lemma ContinuedMatches(line: string)
    requires AssignmentLine(line, ANCHOR)
    ensures AssignmentLine(line + Setting(), Continued(line))
  {
    hide Setting, Lstrip;
    AnchorView(line);
    SettingStarts();
    LstripPrefix(line, Setting());
    StartsOn(Lstrip(line), Setting(), PRECISION);
    StartsWithin(Lstrip(line), Setting(), ANCHOR);
  }

  lemma StartsOn(a: string, s: string, p: string)
    requires p <= s && |s| > |p|
    ensures a + p <= a + s && (a + s)[|a + p|] == s[|p|]
  {
  }

  lemma StartsWithin(a: string, s: string, p: string)
    requires p <= a
    ensures p <= a + s && (|p| < |a| ==> (a + s)[|p|] == a[|p|])
  {
  }

  lemma SettingStarts()
    ensures PRECISION <= Setting() && |Setting()| > |PRECISION| && Setting()[|PRECISION|] == ' '
  {
    hide Blanks;
    var owner := SettingObject();
    assert owner != "" && owner[0] == ' ';
    hide SettingObject;
    var p := SettingParts();
    assert p.Line() == PRECISION + (owner + p.field + p.tail);
  }

  lemma OwnOne(line: string, q: string)
    ensures Own([line], q) == if AssignmentLine(line, q) then [line] else []
  {
    hide AssignmentLine;
    assert [line][..0] == [];
  }

  lemma InsertedOwn(lines: seq<string>, at: nat, line: string, q: string)
    requires at <= |lines| && Own([line], q) == []
    ensures Own(Inserted(lines, at, line), q) == Own(lines, q)
  {
    hide Own;
    OwnNone(q);
    OwnSplice(lines[..at], [], [line], lines[at..], q);
    assert lines[..at] + [] + lines[at..] == lines;
  }

  lemma MergedOwn(lines: seq<string>, at: nat, merged: string, q: string)
    requires at + 1 == |lines| && Own([lines[at]], q) == [] && Own([merged], q) == []
    ensures Own(lines[..at] + [merged], q) == Own(lines, q)
  {
    hide Own;
    OwnSplice(lines[..at], [lines[at]], [merged], [], q);
    assert lines == lines[..at] + [lines[at]] + [];
    assert lines[..at] + [merged] == lines[..at] + [merged] + [];
  }

  lemma AfterOwn(lines: seq<string>, at: nat, q: string)
    requires at < |lines| && AssignmentLine(lines[at], ANCHOR) && PropertyName(q)
    requires if Terminated(lines[at]) then q != PRECISION else q != ANCHOR && q != Continued(lines[at]) && at + 1 == |lines|
    ensures Own(After(lines, at, Setting()), q) == Own(lines, q)
  {
    hide Own, AssignmentLine, PropertyName, Setting, Terminated, Inserted, Continued;
    if Terminated(lines[at]) {
      SettingFacts();
      OwnOne(Setting(), q);
      InsertedOwn(lines, at + 1, Setting(), q);
    } else {
      SettingNames();
      if AssignmentLine(lines[at], q) {
        OneProperty(lines[at], ANCHOR, q);
        assert false;
      }
      ContinuedOwner(lines[at], q);
      OwnOne(lines[at], q);
      OwnOne(lines[at] + Setting(), q);
      MergedOwn(lines, at, lines[at] + Setting(), q);
    }
  }

  lemma OwnOnly(lines: seq<string>, at: nat, line: string, q: string)
    requires at <= |lines| && Own(lines, q) == [] && Own([line], q) == [line]
    ensures Own(Inserted(lines, at, line), q) == [line]
  {
    hide Own;
    assert lines == lines[..at] + lines[at..];
    OwnConcat(lines[..at], lines[at..], q);
    OwnConcat(lines[..at], [line], q);
    OwnConcat(lines[..at] + [line], lines[at..], q);
  }

  lemma AfterOwnSetting(lines: seq<string>, at: nat)
    requires at < |lines| && Terminated(lines[at]) && Own(lines, PRECISION) == []
    ensures Own(After(lines, at, Setting()), PRECISION) == [Setting()]
  {
    hide Own, AssignmentLine, PropertyName, Setting, Terminated, Inserted;
    SettingNames();
    SettingFacts();
    OwnOne(Setting(), PRECISION);
    OwnOnly(lines, at + 1, Setting(), PRECISION);
  }

  /** The lines a successful call leaves. */
  lemma SetLines(text: string)
    requires SetBinary64(text).Some? && |Matches(SplitKeep(text), PRECISION)| != 1
    ensures Matches(SplitKeep(text), PRECISION) == [] && Own(SplitKeep(text), PRECISION) == []
    ensures |Matches(SplitKeep(text), ANCHOR)| == 1
    ensures var lines := SplitKeep(text);
            var at := Matches(lines, ANCHOR)[0];
            && at < |lines| && AssignmentLine(lines[at], ANCHOR)
            && SplitKeep(SetBinary64(text).value) == After(lines, at, Setting())
            && (!Terminated(lines[at]) ==> at == |lines| - 1)
            && |SetBinary64(text).value| == |text| + |Setting()|
  {
    hide Matches, AssignmentLine, Setting, SplitKeep, Terminated, IsLine, Inserted, Own, After, WellFormed, Join,
         Dissect, Strip, SettingParts, PropertyName, Replace;
    var lines := SplitKeep(text);
    OnlyMatch(lines, ANCHOR);
    OwnMatches(lines, PRECISION);
    var at := Matches(lines, ANCHOR)[0];
    SettingIsLine();
    InsertedSplits(lines, at, Setting());
    AfterWellFormed(lines, at, Setting());
    InsertedLonger(lines, at + 1, Setting());
  }

  // ----- when the setting takes hold, and when a second call changes nothing

  /** The setting was there, or the anchor's line ends in a newline. */
  predicate TakesHold(lines: seq<string>) {
    |Matches(lines, PRECISION)| == 1
    || (|Matches(lines, ANCHOR)| == 1 && Terminated(lines[Matches(lines, ANCHOR)[0]]))
  }

  /** An edit of another property neither makes nor breaks the condition. */
  lemma EditKeepsTakesHold(lines: seq<string>, p: string, v: string)
    requires WellFormed(lines) && EditableValue(v) && ReplaceIn(lines, p, v).Some?
    ensures TakesHold(ReplaceIn(lines, p, v).value) <==> TakesHold(lines)
  {
    hide Matches, Dissect, NewField, Terminated, EditableValue, WellFormed, PropertyName, ReplaceIn;
    SettingNames();
    ReplaceFrames(lines, p, v);
    ReplaceKeepsMatches(lines, p, v, PRECISION);
    ReplaceKeepsMatches(lines, p, v, ANCHOR);
  }

  lemma NotTaken(text: string)
    requires SetBinary64(text).Some? && !TakesHold(SplitKeep(text))
    ensures Matches(SplitKeep(SetBinary64(text).value), PRECISION) == []
  {
    hide Matches, AssignmentLine, Setting, SplitKeep, Terminated, Own, After, PropertyName, WellFormed, SetBinary64;
    SettingNames();
    ContinuedName();
    var lines := SplitKeep(text);
    SetLinesOf(text);
    AfterOwn(lines, Matches(lines, ANCHOR)[0], PRECISION);
    OwnMatches(SplitKeep(SetBinary64(text).value), PRECISION);
  }

  lemma SetLinesOf(text: string)
    requires SetBinary64(text).Some? && !TakesHold(SplitKeep(text))
    ensures Matches(SplitKeep(text), PRECISION) == [] && Own(SplitKeep(text), PRECISION) == []
    ensures |Matches(SplitKeep(text), ANCHOR)| == 1
    ensures var lines := SplitKeep(text);
            var at := Matches(lines, ANCHOR)[0];
            && at < |lines| && AssignmentLine(lines[at], ANCHOR) && !Terminated(lines[at]) && at == |lines| - 1
            && SplitKeep(SetBinary64(text).value) == After(lines, at, Setting())
  {
    hide Matches, AssignmentLine, Setting, SplitKeep, Terminated, Own, After, SetBinary64;
    SetLines(text);
  }

  /**
   * Every other property reads as before, scoped or not. Where the setting does not take hold, that leaves out
   * the anchor's own property and the name that a bare anchor becomes.
   */
  lemma SettingLeavesOthers(text: string, q: string, owner: string)
    requires SetBinary64(text).Some? && PropertyName(q) && q != PRECISION
    requires TakesHold(SplitKeep(text)) || (q != ANCHOR && q != ANCHOR + PRECISION)
    ensures ScopedValue(SetBinary64(text).value, q, owner) == ScopedValue(text, q, owner)
    ensures ValueOf(SetBinary64(text).value, q) == ValueOf(text, q)
  {
    hide Own, SplitKeep, SetBinary64, ScopedIn, ValueIn, PropertyName, TakesHold;
    SettingLeavesOwn(text, q);
    OwnDecides(SplitKeep(text), SplitKeep(SetBinary64(text).value), q, owner);
  }

  lemma SettingLeavesOwn(text: string, q: string)
    requires SetBinary64(text).Some? && PropertyName(q) && q != PRECISION
    requires TakesHold(SplitKeep(text)) || (q != ANCHOR && q != ANCHOR + PRECISION)
    ensures Own(SplitKeep(SetBinary64(text).value), q) == Own(SplitKeep(text), q)
  {
    hide Matches, AssignmentLine, Setting, SplitKeep, Terminated, Own, After, PropertyName, ReplaceIn,
         Replace, EditableValue, WellFormed, Lstrip;
    SettingNames();
    var lines := SplitKeep(text);
    if |Matches(lines, PRECISION)| == 1 {
      ReplaceOnLines(text, PRECISION, "1");
      EditLeavesOwn(lines, PRECISION, "1", q);
    } else {
      SetLines(text);
      AfterOwn(lines, Matches(lines, ANCHOR)[0], q);
    }
  }

  // ----- the anchor itself, where the setting continues its line

  /** The anchor's line ends in a comment after its value, or it is the bare name. */
  ghost predicate Closed(line: string) {
    match Dissect(line)
    case Some(p) => p.tail != ""
    case None => Lstrip(line) == ANCHOR
  }

  lemma {:induction false} StripGrows(field: string, more: string)
    requires !AllBlank(more)
    ensures |Strip(field + more)| > |Strip(field)|
  {
    if AllBlank(field) {
      BlankFieldStrips(field);
      LstripBlanks(field, more);
      StrippedIsNotBlank(more);
    } else {
      LstripPrefix(field, more);
      RstripSuffix(Lstrip(field), more);
      NotAllBlank(more);
    }
  }

  lemma BareHasNoValue(line: string)
    requires Lstrip(line) == ANCHOR
    ensures Dissect(line).None?
  {
    LstripSplits(line);
    BlanksLack(Leading(line));
    SettingNames();
    assert Lacks(ANCHOR, '=');
    LacksConcat(Leading(line), ANCHOR, '=');
    hide Lstrip, Leading, AllBlank;
    LacksNoValue(line);
  }

  lemma BlanksLack(s: string)
    requires AllBlank(s)
    ensures Lacks(s, '=')
  {
  }

  lemma LacksNoValue(line: string)
    requires Lacks(line, '=')
    ensures Dissect(line).None?
  {
    assert Lacks(Body(line), '=');
    hide Body;
  }

  lemma RegroupLine(l: string, head: string, field: string, tail: string)
    ensures l + (head + field + tail) == (l + head) + field + tail
  {
  }

  lemma RegroupField(head: string, f: string, h: string, g: string, tail: string)
    ensures head + f + "" + (h + g + tail) == head + (f + (h + g)) + tail
  {
  }

  lemma RegroupTail(head: string, field: string, tail: string, more: string)
    ensures head + field + tail + more == head + field + (tail + more)
  {
  }

  /** A closed value is cut as before. */
  lemma ClosedKeeps(line: string, p: Parts)
    requires IsLine(line) && !Terminated(line) && Dissect(line) == Some(p) && p.tail != ""
    ensures Dissect(line + Setting()) == Some(p.(tail := p.tail + Setting()))
  {
    DissectIsShaped(line);
    ShapedEnd(p);
    SettingFacts();
    assert IsTail(p.tail + Setting()) by { TailContinues(p.tail, Setting()); }
    hide Dissect, Setting, IsHead, IsField, IsTail, IsLine, Terminated;
    RegroupTail(p.head, p.field, p.tail, Setting());
    ShapedDissects(p.(tail := p.tail + Setting()));
  }

  lemma TailContinues(tail: string, more: string)
    requires IsTail(tail) && tail != "" && !Terminated(tail) && IsLine(more)
    ensures IsTail(tail + more)
  {
    assert (tail + more)[0] == tail[0];
  }

  /** An open value swallows the setting up to its comment. */
  lemma OpenSwallows(line: string, p: Parts)
    requires IsLine(line) && !Terminated(line) && Dissect(line) == Some(p) && p.tail == ""
    ensures Dissect(line + Setting()).Some?
    ensures Strip(Dissect(line + Setting()).value.field) != Strip(p.field)
  {
    DissectIsShaped(line);
    SettingShaped();
    SettingMore();
    hide Dissect, SettingParts, Shaped, IsField, IsLine, Terminated, Strip, AllBlank;
    var t := SettingParts();
    OpenShape(p, t);
    StripGrows(p.field, t.head + t.field);
  }

  lemma OpenShape(p: Parts, t: Parts)
    requires Shaped(p) && Shaped(t) && p.tail == "" && IsField(t.head)
    ensures Dissect(p.Line() + t.Line()) == Some(Parts(p.head, p.field + (t.head + t.field), t.tail))
  {
    FieldsJoin(t.head, t.field);
    FieldsJoin(p.field, t.head + t.field);
    hide Dissect, IsHead, IsField, IsTail;
    var more := t.head + t.field;
    RegroupField(p.head, p.field, t.head, t.field, t.tail);
    hide Shaped;
    MergedLine(p.head, p.field + more, t.tail);
  }

  lemma MergedLine(head: string, field: string, tail: string)
    requires IsHead(head) && IsField(field) && IsTail(tail)
    ensures Dissect(head + field + tail) == Some(Parts(head, field, tail))
  {
    hide Dissect, IsHead, IsField, IsTail;
    ShapedDissects(Parts(head, field, tail));
  }

  lemma FieldsJoin(a: string, b: string)
    requires IsField(a) && IsField(b)
    ensures IsField(a + b)
  {
  }

  lemma SettingMore()
    ensures !AllBlank(SettingParts().head + SettingParts().field) && IsField(SettingParts().head)
  {
    SettingStarts();
    SettingNames();
    HeadLacks('!');
    HeadLacks('\n');
    HeadRegroups(Blanks(17), "$SLV_SolverSettings", Blanks(11));
    var head := SettingParts().head;
    assert head == PRECISION + " (" + Blanks(17) + "$SLV_SolverSettings" + Blanks(11) + ") " + "=";
    assert Lacks(head, '!') && Lacks(head, '\n') by {
      LacksConcat(PRECISION + " (" + Blanks(17) + "$SLV_SolverSettings" + Blanks(11) + ") ", "=", '!');
      LacksConcat(PRECISION + " (" + Blanks(17) + "$SLV_SolverSettings" + Blanks(11) + ") ", "=", '\n');
    }
    assert (head + SettingParts().field)[0] == head[0] == 's';
  }

  /** An anchor line without an equals sign gets the setting's. */
  lemma NoValueGetsOne(line: string)
    requires IsLine(line) && !Terminated(line) && Dissect(line).None?
    ensures Dissect(line + Setting()).Some? && Strip(Dissect(line + Setting()).value.field) == "1"
  {
    SettingShaped();
    SettingFacts();
    var t := SettingParts();
    assert IsHead(line + t.head) by { HeadContinues(line, t.head); }
    hide Dissect, SettingParts, IsHead, IsField, IsTail, IsLine, Terminated, Strip;
    RegroupLine(line, t.head, t.field, t.tail);
    ShapedDissects(Parts(line + t.head, t.field, t.tail));
  }

  lemma HeadContinues(line: string, head: string)
    requires IsLine(line) && !Terminated(line) && Dissect(line).None? && IsHead(head)
    ensures IsHead(line + head)
  {
    assert Body(line) == line;
    assert forall i :: 0 <= i < |line| ==> line[i] != '=';
  }

  /** Where the setting does not take hold, the anchor's property keeps its value if and only if its line is closed. */
  lemma AnchorKeepsValueIff(text: string)
    requires SetBinary64(text).Some? && !TakesHold(SplitKeep(text))
    ensures |Own(SplitKeep(text), ANCHOR)| == 1
    ensures ValueOf(SetBinary64(text).value, ANCHOR) == ValueOf(text, ANCHOR)
       <==> Closed(Own(SplitKeep(text), ANCHOR)[0])
  {
    hide AssignmentLine, Setting, SplitKeep, Own, After, PropertyName, SetBinary64, Matches, Dissect, Strip, Lstrip, Terminated, IsLine;
    SetLinesOf(text);
    SettingNames();
    ContinuedName();
    var lines := SplitKeep(text);
    var at := |lines| - 1;
    LineIsLine(lines, at);
    OwnMatches(lines, ANCHOR);
    ContinuedOwn(lines, ANCHOR);
    OwnMatches(After(lines, at, Setting()), ANCHOR);
    ContinuedOwner(lines[at], ANCHOR);
    if Lstrip(lines[at]) == ANCHOR {
      BareHasNoValue(lines[at]);
    } else {
      match Dissect(lines[at])
      case None => NoValueGetsOne(lines[at]);
      case Some(p) =>
        if p.tail != "" {
          ClosedKeeps(lines[at], p);
        } else {
          OpenSwallows(lines[at], p);
        }
    }
  }

  lemma ContinuedOwn(lines: seq<string>, q: string)
    requires lines != [] && !Terminated(lines[|lines| - 1]) && |Matches(lines, q)| == 1 && AssignmentLine(lines[|lines| - 1], q)
    ensures var last := |lines| - 1;
            var merged := lines[last] + Setting();
            Own(After(lines, last, Setting()), q) == if AssignmentLine(merged, q) then [merged] else []
  {
    hide AssignmentLine, Setting, Terminated, Own;
    var last := |lines| - 1;
    var merged := lines[last] + Setting();
    OwnMatches(lines, q);
    assert lines == lines[..last] + [lines[last]];
    OwnConcat(lines[..last], [lines[last]], q);
    OwnOne(lines[last], q);
    OwnConcat(lines[..last], [merged], q);
    OwnOne(merged, q);
    assert |Own(lines[..last], q)| == 0;
  }

  /** The setting reads back as 1 exactly when it took hold. */
  lemma SettingReadsBack(text: string)
    requires SetBinary64(text).Some?
    ensures ValueOf(SetBinary64(text).value, PRECISION) == Some("1") <==> TakesHold(SplitKeep(text))
  {
    hide Matches, AssignmentLine, Setting, SplitKeep, Terminated, Own, After, PropertyName, EditableValue,
         Dissect, Strip, Replace, WellFormed, SettingParts;
    SettingNames();
    var lines := SplitKeep(text);
    if |Matches(lines, PRECISION)| == 1 {
      PutGet(text, PRECISION, "1", PRECISION);
    } else if TakesHold(lines) {
      SetLines(text);
      SettingFacts();
      AfterOwnSetting(lines, Matches(lines, ANCHOR)[0]);
      OwnMatches(SplitKeep(SetBinary64(text).value), PRECISION);
    } else {
      NotTaken(text);
    }
  }

  /** A second call changes nothing exactly when the first took hold. */
  lemma SettingTwice(text: string)
    requires SetBinary64(text).Some?
    ensures SetBinary64(SetBinary64(text).value) == SetBinary64(text) <==> TakesHold(SplitKeep(text))
  {
    hide Matches, AssignmentLine, Setting, SplitKeep, Terminated, Own, After, PropertyName, EditableValue,
         Dissect, Strip, Replace, WellFormed, ValueOf, Join, Inserted;
    SettingNames();
    SettingReadsBack(text);
    var t := SetBinary64(text).value;
    if TakesHold(SplitKeep(text)) {
      GetPut(t, PRECISION, "1");
      ReadsOnce(t, PRECISION);
    } else {
      NotTaken(text);
      if SetBinary64(t).Some? {
        SetLines(t);
        SettingFacts();
        assert |SetBinary64(t).value| > |t| by { SettingNotEmpty(); }
      }
    }
  }

  lemma ReadsOnce(text: string, p: string)
    requires ValueOf(text, p).Some?
    ensures |Matches(SplitKeep(text), p)| == 1
  {
  }

  lemma SettingNotEmpty()
    ensures |Setting()| > 0
  {
    assert |Setting()| >= |PRECISION|;
  }

  // ----- a text where it does not take hold

  /** An anchor that is the whole text, without a newline. */
  lemma AnchorAlone()
    ensures SetBinary64(ANCHOR).Some? && !TakesHold(SplitKeep(ANCHOR))
    ensures ValueOf(SetBinary64(ANCHOR).value, PRECISION) != Some("1")
    ensures SetBinary64(SetBinary64(ANCHOR).value) != SetBinary64(ANCHOR)
  {
    AnchorLine();
    hide AssignmentLine, SetBinary64, Setting, SplitKeep, ValueOf;
    assert Matches([ANCHOR], ANCHOR) == [0] && Matches([ANCHOR], PRECISION) == [] by {
      assert [ANCHOR][..0] == [];
      assert Matches([], ANCHOR) == [] && Matches([], PRECISION) == [];
    }
    AnchorAloneSets();
    SettingReadsBack(ANCHOR);
    SettingTwice(ANCHOR);
  }

  lemma AnchorLine()
    ensures SplitKeep(ANCHOR) == [ANCHOR] && !Terminated(ANCHOR)
    ensures AssignmentLine(ANCHOR, ANCHOR) && !AssignmentLine(ANCHOR, PRECISION)
  {
    SettingNames();
    assert IsLine(ANCHOR) && !Terminated(ANCHOR);
    SplitLast(ANCHOR);
    LstripStays(ANCHOR);
    hide Lstrip, SplitKeep;
    assert PRECISION[9] != ANCHOR[9];
  }

  lemma AnchorAloneSets()
    requires SplitKeep(ANCHOR) == [ANCHOR] && Matches([ANCHOR], ANCHOR) == [0] && Matches([ANCHOR], PRECISION) == []
    ensures SetBinary64(ANCHOR).Some?
  {
    hide Matches, SplitKeep, Setting, Join;
  }
}

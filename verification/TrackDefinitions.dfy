/** How often a model defines a track. */
module TrackDefinitions {
  import opened TextLines
  import opened ModelEditor
  import opened ScopedAssignments

  const TRACK_TYPE := "track.type"

  /** From position j: the track, a closing parenthesis and an equals sign, with blanks between. */
  predicate NamesAt(text: string, track: string, j: nat) {
    && j + |track| <= |text| && text[j..j + |track|] == track
    && var closing := Lstrip(text[j + |track|..]);
       closing != "" && closing[0] == ')'
       && var rest := Lstrip(closing[1..]);
          rest != "" && rest[0] == '='
  }

  /** A line that starts with the type property and, in its parentheses, ends with the track. */
  predicate DefinesTrack(line: string, track: string) {
    && TRACK_TYPE <= line
    && var rest := Lstrip(line[|TRACK_TYPE|..]);
       rest != "" && rest[0] == '(' && exists j :: 1 <= j <= |rest| && NamesAt(rest, track, j)
  }

  function Definitions(lines: seq<string>, track: string): nat {
    if lines == [] then 0
    else
      var last := |lines| - 1;
      Definitions(lines[..last], track) + if DefinesTrack(Body(lines[last]), track) then 1 else 0
  }

  method CountDefinitions(text: string, track: string) returns (count: nat)
    ensures count == Definitions(SplitKeep(text), track)
  {
    hide DefinesTrack, SplitKeep;
    var lines := SplitKeep(text);
    count := 0;
    for i := 0 to |lines|
      invariant count == Definitions(lines[..i], track)
    {
      assert lines[..i + 1][..i] == lines[..i];
      if DefinesTrack(Body(lines[i]), track) {
        count := count + 1;
      }
    }
    assert lines[..|lines|] == lines;
  }

  lemma TrackTypeName()
    ensures PropertyName(TRACK_TYPE) && |TRACK_TYPE| == 10 && TRACK_TYPE[0] == 't' && TRACK_TYPE[6] == 't'
  {
  }

  /** A defining line is a line of the type property. */
  lemma DefinesOwn(line: string, track: string)
    requires DefinesTrack(Body(line), track)
    ensures AssignmentLine(line, TRACK_TYPE)
  {
    TrackTypeName();
    var body := Body(line);
    var after := body[|TRACK_TYPE|..];
    hide NamesAt, Body, PropertyName;
    LstripStays(body);
    if !IsBlank(body[|TRACK_TYPE|]) {
      LstripStays(after);
    }
    MatchWithoutNewline(line, TRACK_TYPE);
  }

  lemma {:induction false} DefinitionsMore(lines: seq<string>, line: string, track: string)
    ensures Definitions(lines + [line], track) == Definitions(lines, track) + if DefinesTrack(Body(line), track) then 1 else 0
  {
    hide DefinesTrack, Body;
    assert (lines + [line])[..|lines|] == lines;
  }

  /** The count depends on the type property's own lines only. */
  lemma {:induction false} DefinitionsByOwn(lines: seq<string>, track: string)
    ensures Definitions(lines, track) == Definitions(Own(lines, TRACK_TYPE), track)
  {
    hide AssignmentLine, Body, DefinesTrack, Own, Definitions;
    if lines == [] {
      OwnNone(TRACK_TYPE);
    } else {
      var before, line := lines[..|lines| - 1], lines[|lines| - 1];
      assert lines == before + [line];
      DefinitionsByOwn(before, track);
      OwnMore(before, line, TRACK_TYPE);
      DefinitionsMore(before, line, track);
      DefinitionsMore(Own(before, TRACK_TYPE), line, track);
      if DefinesTrack(Body(line), track) {
        DefinesOwn(line, track);
      }
    }
  }

  // ----- the shape of a definition

  /** The type property, and in parentheses anything that ends with the track, then an equals sign; blanks between. */
  ghost predicate Definition(line: string, track: string, b: seq<string>, inside: string, value: string) {
    && |b| == 3 && AllBlank(b[0]) && AllBlank(b[1]) && AllBlank(b[2])
    && line == TRACK_TYPE + (b[0] + ("(" + (inside + (track + (b[1] + (")" + (b[2] + ("=" + value))))))))
  }

  lemma MarkAfterBlanks(b: string, mark: char, rest: string)
    requires AllBlank(b) && !IsBlank(mark)
    ensures Lstrip(b + ([mark] + rest)) == [mark] + rest
  {
    hide Lstrip;
    LstripBlanks(b, [mark] + rest);
    LstripStays([mark] + rest);
  }

  lemma Marked(s: string, mark: char) returns (b: string, rest: string)
    requires Lstrip(s) != "" && Lstrip(s)[0] == mark
    ensures AllBlank(b) && s == b + ([mark] + rest) && rest == Lstrip(s)[1..]
  {
    LstripSplits(s);
    hide Lstrip, AllBlank, Leading;
    b, rest := Leading(s), Lstrip(s)[1..];
    assert Lstrip(s) == [mark] + rest;
  }

  lemma CutTwice(s: string, i: nat, k: nat)
    requires i <= k <= |s|
    ensures s[i..] == s[i..k] + s[k..]
  {
  }

  lemma NamesCloses(text: string, track: string, j: nat) returns (b: string, c: string, value: string)
    requires NamesAt(text, track, j)
    ensures Closes(text[j..], track, b, c, value)
  {
    hide Lstrip, AllBlank, IsBlank;
    var tail := text[j + |track|..];
    var after;
    b, after := Marked(tail, ')');
    c, value := Marked(after, '=');
    CutTwice(text, j, j + |track|);
    assert ['='] == "=" && [')'] == ")";
  }

  lemma ClosesNames(text: string, track: string, j: nat, b: string, c: string, value: string)
    requires j <= |text| && Closes(text[j..], track, b, c, value)
    ensures NamesAt(text, track, j)
  {
    hide Lstrip, AllBlank;
    var after := c + ("=" + value);
    var tail := b + (")" + after);
    assert ['='] == "=" && [')'] == ")";
    MarkAfterBlanks(c, '=', value);
    MarkAfterBlanks(b, ')', after);
    assert text[j..][..|track|] == track && text[j..][|track|..] == tail;
    assert text[j + |track|..] == tail && text[j..j + |track|] == track;
    assert (")" + after)[1..] == after;
  }

  ghost predicate Closes(s: string, track: string, b: string, c: string, value: string) {
    AllBlank(b) && AllBlank(c) && s == track + (b + (")" + (c + ("=" + value))))
  }

  /** A line defines the track exactly when it has that shape. */
  lemma DefinesTrackIs(line: string, track: string)
    ensures DefinesTrack(line, track) <==> exists b, inside, value :: Definition(line, track, b, inside, value)
  {
    hide NamesAt, Lstrip, Definition;
    if DefinesTrack(line, track) {
      var rest := Lstrip(line[|TRACK_TYPE|..]);
      var j: nat :| 1 <= j <= |rest| && NamesAt(rest, track, j);
      DefinesDefinition(line, track, j);
    }
    forall b, inside, value | Definition(line, track, b, inside, value) ensures DefinesTrack(line, track) {
      DefinitionDefines(line, track, b, inside, value);
    }
  }

  lemma DefinesDefinition(line: string, track: string, j: nat)
    requires TRACK_TYPE <= line
    requires var rest := Lstrip(line[|TRACK_TYPE|..]);
             rest != "" && rest[0] == '(' && 1 <= j <= |rest| && NamesAt(rest, track, j)
    ensures exists b, inside, value :: Definition(line, track, b, inside, value)
  {
    hide NamesAt, Lstrip, AllBlank;
    var after := line[|TRACK_TYPE|..];
    var rest := Lstrip(after);
    var b, c, value := NamesCloses(rest, track, j);
    var first, arguments := Marked(after, '(');
    CutTwice(rest, 1, j);
    CutTwice(line, 0, |TRACK_TYPE|);
    assert rest[1..] == arguments && line[0..] == line && ['('] == "(";
    assert Definition(line, track, [first, b, c], rest[1..j], value);
  }

  lemma DefinitionDefines(line: string, track: string, b: seq<string>, inside: string, value: string)
    requires Definition(line, track, b, inside, value)
    ensures DefinesTrack(line, track)
  {
    hide NamesAt, Lstrip, AllBlank;
    var closed := track + (b[1] + (")" + (b[2] + ("=" + value))));
    var rest := "(" + (inside + closed);
    assert line == TRACK_TYPE + (b[0] + rest);
    assert TRACK_TYPE <= line && line[|TRACK_TYPE|..] == b[0] + rest;
    assert ['('] == "(";
    MarkAfterBlanks(b[0], '(', inside + closed);
    var j := |inside| + 1;
    assert rest[j..] == closed;
    assert Closes(rest[j..], track, b[1], b[2], value);
    ClosesNames(rest, track, j, b[1], b[2], value);
  }
}

/** Reading the value one property has for one named object, and what an edit elsewhere leaves of it. */
module ScopedAssignments {
  import opened Wrappers
  import opened TextLines
  import opened ModelEditor
  import opened Readings

  /** The blank-separated words of a text. */
  function Words(s: string): seq<string>
    decreases |s|
  {
    var view := Lstrip(s);
    if view == "" then []
    else
      var end := WordEnd(view);
      [view[..end]] + Words(view[end..])
  }

  function WordEnd(s: string): (end: nat)
    requires s != "" && !IsBlank(s[0])
    ensures 0 < end <= |s| && (end < |s| ==> IsBlank(s[end]))
    ensures forall i :: 0 <= i < end ==> !IsBlank(s[i])
  {
    if |s| == 1 || IsBlank(s[1]) then 1
    else
      var rest := WordEnd(s[1..]);
      assert forall i :: 1 <= i < rest + 1 ==> s[i] == s[1..][i - 1];
      rest + 1
  }

  /** What a line, without its newline, says of the property for the object. */
  function ScopedLine(line: string, q: string, owner: string): Reading {
    if !AssignmentLine(line, q) then Other
    else
      var opening := Find(line, '(', 0);
      var closing := Find(line, ')', if opening.Some? then opening.value + 1 else 0);
      if opening.None? || closing.None? then Other
      else if owner !in Words(line[opening.value + 1..closing.value]) then Other
      else
        match Find(line, '=', closing.value + 1)
        case None => Malformed
        case Some(equals) =>
          var comment := Find(line, '!', equals + 1);
          Holds(Strip(line[equals + 1..if comment.Some? then comment.value else |line|]))
  }

  function Says(lines: seq<string>, q: string, owner: string): (r: seq<Reading>)
    ensures |r| == |lines|
  {
    if lines == [] then []
    else Says(lines[..|lines| - 1], q, owner) + [ScopedLine(Body(lines[|lines| - 1]), q, owner)]
  }

  lemma {:induction false} SaysAt(lines: seq<string>, q: string, owner: string, i: nat)
    requires i < |lines|
    ensures Says(lines, q, owner)[i] == ScopedLine(Body(lines[i]), q, owner)
  {
    hide ScopedLine, Body;
    if i < |lines| - 1 {
      SaysAt(lines[..|lines| - 1], q, owner, i);
    }
  }

  /** None where the code raises. */
  function ScopedIn(lines: seq<string>, q: string, owner: string): Option<string> {
    Single(Says(lines, q, owner))
  }

  function ScopedValue(text: string, q: string, owner: string): Option<string> {
    ScopedIn(SplitKeep(text), q, owner)
  }

  ghost predicate OnlyLineSays(lines: seq<string>, q: string, owner: string, v: string, at: nat) {
    && at < |lines| && ScopedLine(Body(lines[at]), q, owner) == Holds(v)
    && forall i :: 0 <= i < |lines| && i != at ==> ScopedLine(Body(lines[i]), q, owner) == Other
  }

  /** The reader returns a value exactly when one line holds it and no other line speaks of the object. */
  lemma ScopedMeaning(text: string, q: string, owner: string, v: string)
    ensures ScopedValue(text, q, owner) == Some(v)
       <==> exists at: nat :: OnlyLineSays(SplitKeep(text), q, owner, v, at)
  {
    hide ScopedLine, Body, Says, Single;
    var lines := SplitKeep(text);
    var says := Says(lines, q, owner);
    SingleMeaning(says, v);
    forall i: nat | i < |lines| ensures says[i] == ScopedLine(Body(lines[i]), q, owner) {
      SaysAt(lines, q, owner, i);
    }
    forall at: nat ensures OnlyHolds(says, v, at) <==> OnlyLineSays(lines, q, owner, v, at) {
    }
  }

  /** Accumulates the values line by line, as the reader does. */
  method ScopedAssignmentValue(text: string, q: string, owner: string) returns (r: Option<string>)
    ensures r == ScopedValue(text, q, owner)
  {
    hide ScopedLine, Says, Collect, SplitKeep, Body;
    var lines := SplitKeep(text);
    var values: seq<string> := [];
    NothingSaid(q, owner);
    for i := 0 to |lines|
      invariant Collect(Says(lines[..i], q, owner)) == Some(values)
    {
      assert lines[..i + 1] == lines[..i] + [lines[i]];
      var reading := ScopedLine(Body(lines[i]), q, owner);
      CollectSays(lines[..i], lines[i], q, owner);
      match reading
      case Other =>
      case Malformed =>
        SaysStart(lines, i + 1, q, owner);
        StaysMalformed(Says(lines, q, owner), i + 1);
        return None;
      case Holds(value) => values := values + [value];
    }
    assert lines[..|lines|] == lines;
    r := if |values| == 1 then Some(values[0]) else None;
  }

  lemma NothingSaid(q: string, owner: string)
    ensures Collect(Says([], q, owner)) == Some([])
  {
  }

  lemma {:induction false} SaysStart(lines: seq<string>, n: nat, q: string, owner: string)
    requires n <= |lines|
    ensures Says(lines, q, owner)[..n] == Says(lines[..n], q, owner)
  {
    hide ScopedLine, Body;
    if n < |lines| {
      var before := lines[..|lines| - 1];
      SaysStart(before, n, q, owner);
      assert before[..n] == lines[..n];
    } else {
      assert lines[..n] == lines;
    }
  }

  // ----- a property's own lines decide everything read about it

  function Own(lines: seq<string>, q: string): seq<string> {
    if lines == [] then []
    else
      var last := |lines| - 1;
      Own(lines[..last], q) + (if AssignmentLine(lines[last], q) then [lines[last]] else [])
  }

  lemma {:induction false} OwnConcat(a: seq<string>, b: seq<string>, q: string)
    ensures Own(a + b, q) == Own(a, q) + Own(b, q)
  {
    hide AssignmentLine;
    if b == [] {
      assert a + b == a;
    } else {
      var last := |b| - 1;
      assert (a + b)[..|a| + last] == a + b[..last];
      OwnConcat(a, b[..last], q);
    }
  }

  lemma OwnSplice(a: seq<string>, before: seq<string>, after: seq<string>, b: seq<string>, q: string)
    requires Own(before, q) == Own(after, q)
    ensures Own(a + before + b, q) == Own(a + after + b, q)
  {
    hide Own;
    OwnConcat(a + before, b, q);
    OwnConcat(a, before, q);
    OwnConcat(a + after, b, q);
    OwnConcat(a, after, q);
  }

  lemma {:induction false} OwnMatches(lines: seq<string>, q: string)
    ensures |Own(lines, q)| == |Matches(lines, q)|
    ensures forall k :: 0 <= k < |Own(lines, q)| ==> Own(lines, q)[k] == lines[Matches(lines, q)[k]]
  {
    hide AssignmentLine;
    if lines != [] {
      OwnMatches(lines[..|lines| - 1], q);
    }
  }

  /** Dropping the newline does not change whose line it is. */
  lemma MatchWithoutNewline(line: string, q: string)
    requires PropertyName(q)
    ensures AssignmentLine(Body(line), q) <==> AssignmentLine(line, q)
  {
    hide AssignmentLine;
    if Terminated(line) {
      assert line == Body(line) + "\n";
      MatchBeforeNewline(Body(line), q);
    }
  }

  lemma MatchBeforeNewline(body: string, q: string)
    requires PropertyName(q)
    ensures AssignmentLine(body + "\n", q) <==> AssignmentLine(body, q)
  {
    hide Lstrip, AllBlank;
    if AllBlank(body) {
      hide *;
      LstripBlanks(body, "\n");
      LstripBlanks(body, "");
      NothingLeft();
      assert body + "" == body;
      NeitherIsLine(body, q);
    } else {
      LstripPrefix(body, "\n");
      NoNewlineInName(Lstrip(body), q);
    }
  }

  lemma NothingLeft()
    ensures Lstrip("\n") == "" && Lstrip("") == ""
  {
  }

  lemma NeitherIsLine(body: string, q: string)
    requires PropertyName(q) && Lstrip(body) == "" && Lstrip(body + "\n") == ""
    ensures !AssignmentLine(body, q) && !AssignmentLine(body + "\n", q)
  {
    hide Lstrip;
  }

  lemma NoNewlineInName(view: string, q: string)
    requires forall i :: 0 <= i < |q| ==> q[i] != '\n'
    ensures q <= view + "\n" <==> q <= view
    ensures (view + "\n")[|view|] == '\n'
    ensures q <= view && |q| < |view| ==> (view + "\n")[|q|] == view[|q|]
  {
  }

  lemma OtherLine(line: string, q: string, owner: string)
    requires PropertyName(q) && !AssignmentLine(line, q)
    ensures ScopedLine(Body(line), q, owner) == Other
  {
    hide Body, AssignmentLine, PropertyName;
    MatchWithoutNewline(line, q);
  }

  lemma {:induction false} ScopedByOwn(lines: seq<string>, q: string, owner: string)
    requires PropertyName(q)
    ensures Collect(Says(lines, q, owner)) == Collect(Says(Own(lines, q), q, owner))
  {
    hide AssignmentLine, Body, PropertyName, ScopedLine, Collect, Says, Own;
    if lines == [] {
      OwnNone(q);
    } else {
      var before, line := lines[..|lines| - 1], lines[|lines| - 1];
      assert lines == before + [line];
      ScopedByOwn(before, q, owner);
      OwnMore(before, line, q);
      CollectSays(before, line, q, owner);
      if AssignmentLine(line, q) {
        CollectSays(Own(before, q), line, q, owner);
      } else {
        OtherLine(line, q, owner);
      }
    }
  }

  lemma OwnNone(q: string)
    ensures Own([], q) == []
  {
  }

  lemma OwnMore(lines: seq<string>, line: string, q: string)
    ensures Own(lines + [line], q) == if AssignmentLine(line, q) then Own(lines, q) + [line] else Own(lines, q)
  {
    hide AssignmentLine;
    assert (lines + [line])[..|lines|] == lines;
  }

  lemma CollectSays(lines: seq<string>, line: string, q: string, owner: string)
    ensures Collect(Says(lines + [line], q, owner)) == Add(Collect(Says(lines, q, owner)), ScopedLine(Body(line), q, owner))
  {
    hide ScopedLine, Body, Collect, Add;
    assert (lines + [line])[..|lines|] == lines;
    CollectMore(Says(lines, q, owner), ScopedLine(Body(line), q, owner));
  }

  /** Same own lines: same scoped values, same plain value. */
  lemma OwnDecides(a: seq<string>, b: seq<string>, q: string, owner: string)
    requires PropertyName(q) && Own(a, q) == Own(b, q)
    ensures ScopedIn(a, q, owner) == ScopedIn(b, q, owner)
    ensures ValueIn(a, q) == ValueIn(b, q)
  {
    hide Own, Says, Matches, Dissect, Strip;
    ScopedByOwn(a, q, owner);
    ScopedByOwn(b, q, owner);
    OwnMatches(a, q);
    OwnMatches(b, q);
  }

  /** An edit of one property leaves the own lines of every other. */
  lemma EditLeavesOwn(lines: seq<string>, p: string, v: string, q: string)
    requires WellFormed(lines) && EditableValue(v) && ReplaceIn(lines, p, v).Some?
    requires PropertyName(p) && PropertyName(q) && p != q
    ensures Own(ReplaceIn(lines, p, v).value, q) == Own(lines, q)
  {
    hide AssignmentLine, NewField, Dissect, Matches, ReplaceIn, WellFormed, PropertyName;
    ReplaceFrames(lines, p, v);
    var i := Matches(lines, p)[0];
    var lines' := ReplaceIn(lines, p, v).value;
    ReplaceKeepsMatches(lines, p, v, p);
    OnlyMatch(lines, p);
    OnlyMatch(lines', p);
    if AssignmentLine(lines[i], q) {
      OneProperty(lines[i], p, q);
    }
    if AssignmentLine(lines'[i], q) {
      OneProperty(lines'[i], p, q);
    }
    assert lines == lines[..i] + [lines[i]] + lines[i + 1..];
    assert lines' == lines[..i] + [lines'[i]] + lines[i + 1..];
    OwnSplice(lines[..i], [lines[i]], [lines'[i]], lines[i + 1..], q);
  }

  /** An edit of one property leaves what every other property says of every object. */
  lemma EditLeavesScoped(text: string, p: string, v: string, q: string, owner: string)
    requires PropertyName(p) && PropertyName(q) && p != q && EditableValue(v) && Replace(text, p, v).Some?
    ensures ScopedValue(Replace(text, p, v).value, q, owner) == ScopedValue(text, q, owner)
  {
    hide ReplaceIn, ScopedIn, Own, ValueIn, PropertyName, EditableValue;
    ReplaceOnLines(text, p, v);
    EditLeavesOwn(SplitKeep(text), p, v, q);
    OwnDecides(SplitKeep(text), ReplaceIn(SplitKeep(text), p, v).value, q, owner);
  }
}

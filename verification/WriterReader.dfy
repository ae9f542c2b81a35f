/** The reader finds what the writer wrote, exactly when no line is a bare name. */
module WriterReader {
  import opened Wrappers
  import opened TextLines
  import opened ModelEditor
  import opened Readings
  import opened HistoricalLines
  import opened RealtimeModel

  /** What the writer's dictionary is: distinct names with values an assignment can hold. */
  ghost predicate Dictionary(edits: seq<Edit>) {
    && Distinct(edits)
    && forall e :: e in edits ==> PropertyName(e.property) && EditableValue(e.value)
  }

  /** No keyed name is a dictionary name, and keyed values are single lines. */
  ghost predicate KeysApart(edits: seq<Edit>, keyed: map<Keyed, string>) {
    forall k :: k in keyed ==> OneLine(keyed[k]) && forall e :: e in edits ==> e.property != k.property
  }

  lemma WriterIsAssignment(line: string, p: string)
    requires WriterLine(line, p)
    ensures AssignmentLine(line, p)
  {
  }

  // ----- which edit a line gets

  /** The line's edit is the one whose name it carries, wherever that stands in the dictionary. */
  lemma {:induction false} EditForIs(line: string, edits: seq<Edit>, e: Edit)
    requires forall f :: f in edits ==> PropertyName(f.property)
    requires Distinct(edits)
    ensures EditFor(line, edits) == Some(e) <==> e in edits && WriterLine(line, e.property)
  {
    hide WriterLine, AssignmentLine, PropertyName;
    if edits != [] {
      var first, rest := edits[0], edits[1..];
      EditForIs(line, rest, e);
      assert forall i :: 0 <= i < |rest| ==> rest[i] == edits[i + 1];
      if WriterLine(line, first.property) && WriterLine(line, e.property) && e in edits {
        assert PropertyName(first.property) && PropertyName(e.property);
        WriterIsAssignment(line, first.property);
        WriterIsAssignment(line, e.property);
        OneProperty(line, first.property, e.property);
      }
    }
  }

  lemma SameTarget(line: string, a: seq<Edit>, b: seq<Edit>, keyed: map<Keyed, string>)
    requires Dictionary(a) && Dictionary(b) && forall e :: e in a <==> e in b
    ensures TargetOf(line, a, keyed) == TargetOf(line, b, keyed)
  {
    hide EditFor, WriterLine;
    var x, y := EditFor(line, a), EditFor(line, b);
    if x.Some? {
      EditForIs(line, a, x.value);
      EditForIs(line, b, x.value);
    } else if y.Some? {
      EditForIs(line, a, y.value);
      EditForIs(line, b, y.value);
    }
  }

  lemma {:induction false} SameTransforms(lines: seq<string>, a: seq<Edit>, b: seq<Edit>,
                                          keyed: map<Keyed, string>)
    requires Dictionary(a) && Dictionary(b) && forall e :: e in a <==> e in b
    ensures TransformAll(lines, a, keyed) == TransformAll(lines, b, keyed)
  {
    hide TargetOf, Transformed, Dictionary;
    if lines != [] {
      SameTransforms(lines[..|lines| - 1], a, b, keyed);
      SameTarget(lines[|lines| - 1], a, b, keyed);
    }
  }

  /** The order of the dictionary does not matter. */
  lemma OrderIrrelevant(text: string, a: seq<Edit>, b: seq<Edit>, track: string,
                        keyed: map<Keyed, string>)
    requires Dictionary(a) && Dictionary(b) && forall e :: e in a <==> e in b
    ensures PrepareModel(text, a, track, keyed) == PrepareModel(text, b, track, keyed)
  {
    hide TargetOf, Transformed, Dictionary, TransformAll, SplitKeep, Mentions, JoinLines;
    var lines := Plain(SplitKeep(text));
    SameTransforms(lines, a, b, keyed);
    forall i | 0 <= i < |lines| ensures TargetOf(lines[i], a, keyed) == TargetOf(lines[i], b, keyed) {
      SameTarget(lines[i], a, b, keyed);
    }
    assert Targets(lines, a, keyed) == Targets(lines, b, keyed);
    assert (forall i :: 0 <= i < |a| ==> a[i] in b) && forall i :: 0 <= i < |b| ==> b[i] in a;
  }

  // ----- reading one line back

  /** Whether the writer matches a line is settled before its first equals sign. */
  lemma WriterByHead(head: string, rest: string, p: string)
    requires IsHead(head) && PropertyName(p)
    ensures WriterLine(head + rest, p) <==> WriterLine(head, p)
    ensures WriterLine(head, p) <==> p <= Lstrip(head) && EndsName(Lstrip(head)[|p|])
  {
    assert head[|head| - 1] == '=' && !AllBlank(head);
    LstripPrefix(head, rest);
    var view := Lstrip(head);
    HeadView(head);
    NameEndsEarly(p, view, rest);
  }

  lemma HeadView(head: string)
    requires IsHead(head)
    ensures IsHead(Lstrip(head)) && !IsBlank(Lstrip(head)[0])
  {
    assert !IsBlank(head[|head| - 1]);
    NotAllBlank(head);
  }

  /** A comment's first blanks are none, and its last ones are dropped. */
  lemma CommentStrips(before: string, c: string)
    requires c != "" && c[0] == '!'
    ensures !AllBlank(c) && Rstrip(before + c) == before + Rstrip(c) && Rstrip(c) != "" && Rstrip(c)[0] == '!'
  {
    RstripSuffix(before, c);
    NotAllBlank(c);
  }

  /** A view of the shape "name ... = value", with or without a comment, reads as its value. */
  lemma ViewReads(line: string, head: string, field: string, comment: string, p: string, v: string)
    requires IsHead(head) && IsField(field) && (comment == "" || comment[0] == '!') && PropertyName(p)
    requires Strip(line) == head + field + comment && Strip(field) == v
    ensures ReaderLine(line, p) == if p <= head && EndsName(head[|p|]) then Holds(v) else Other
  {
    hide IsHead, IsField, Find, PropertyName, Strip;
    var view := head + field + comment;
    assert view == head + (field + comment);
    HeadEnd(head);
    NameOf(p);
    NameEndsEarly(p, head, field + comment);
    FindsHead(head, field + comment);
    FindsComment(head, field, comment);
    Reslice(head, field, comment);
    assert p <= head ==> view[|p|] == head[|p|];
  }

  lemma HeadEnd(head: string)
    requires IsHead(head)
    ensures head != "" && head[|head| - 1] == '='
  {
  }

  lemma NameOf(p: string)
    requires PropertyName(p)
    ensures forall i :: 0 <= i < |p| ==> p[i] != '='
  {
  }

  /** What the reader sees of a rewritten line. */
  lemma PlainView(head: string, v: string)
    requires IsHead(head) && EditableValue(v)
    ensures Strip(Assigned(head, v)) == Lstrip(head) + (" " + v)
  {
    HeadIsNotBlank(head);
    hide Lstrip, Rstrip, AllBlank, IsHead, EditableValue;
    assert Assigned(head, v) == head + (" " + v);
    LstripPrefix(head, " " + v);
    ValueEnds(Lstrip(head), v);
  }

  lemma CommentView(head: string, v: string, c: string)
    requires IsHead(head) && c != "" && c[0] == '!'
    ensures Strip(Commented(Assigned(head, v), c)) == Lstrip(head) + (" " + v + " ") + Rstrip(c)
    ensures Rstrip(c) != "" && Rstrip(c)[0] == '!'
  {
    HeadIsNotBlank(head);
    hide Lstrip, Rstrip, AllBlank, IsHead;
    var rest := " " + v + " " + c;
    assert Commented(Assigned(head, v), c) == head + rest;
    LstripPrefix(head, rest);
    assert Lstrip(head) + rest == Lstrip(head) + (" " + v + " ") + c;
    CommentStrips(Lstrip(head) + (" " + v + " "), c);
  }

  lemma HeadIsNotBlank(head: string)
    requires IsHead(head)
    ensures !AllBlank(head)
  {
    assert !IsBlank(head[|head| - 1]);
  }

  lemma ValueEnds(view: string, v: string)
    requires EditableValue(v)
    ensures Rstrip(view + (" " + v)) == view + (" " + v)
  {
    var whole := view + (" " + v);
    assert whole[|whole| - 1] == v[|v| - 1];
    RstripStays(whole);
  }

  lemma SpacedValue(v: string)
    requires EditableValue(v)
    ensures Strip(" " + v) == v && Strip(" " + v + " ") == v
    ensures IsField(" " + v) && IsField(" " + v + " ")
  {
    hide Lstrip, Rstrip;
    StripBetween(" ", v, "");
    StripBetween(" ", v, " ");
    assert " " + v + "" == " " + v;
  }

  /** A rewritten line holds the written value for the name it carried, and nothing for any other. */
  lemma PlainReads(head: string, v: string, p: string)
    requires IsHead(head) && EditableValue(v) && PropertyName(p)
    ensures ReaderLine(Assigned(head, v), p) == if WriterLine(head, p) then Holds(v) else Other
  {
    hide IsHead, Lstrip, Rstrip, Strip, PropertyName, ReaderLine, IsField, EditableValue, WriterLine, AllBlank, Assigned;
    PlainView(head, v);
    HeadView(head);
    HeadMatches(head, p);
    SpacedValue(v);
    AppendNothing(Lstrip(head) + (" " + v));
    ViewReads(Assigned(head, v), Lstrip(head), " " + v, "", p, v);
  }

  lemma AppendNothing(s: string)
    ensures s + "" == s
  {
  }

  lemma HeadMatches(head: string, p: string)
    requires IsHead(head) && PropertyName(p)
    ensures WriterLine(head, p) <==> p <= Lstrip(head) && EndsName(Lstrip(head)[|p|])
  {
    WriterByHead(head, "", p);
  }

  lemma CommentReads(head: string, v: string, c: string, p: string)
    requires IsHead(head) && EditableValue(v) && PropertyName(p) && c != "" && c[0] == '!'
    ensures ReaderLine(Commented(Assigned(head, v), c), p) == if WriterLine(head, p) then Holds(v) else Other
  {
    hide IsHead, Lstrip, Rstrip, Strip, PropertyName, ReaderLine, IsField, EditableValue, WriterLine, AllBlank, Assigned, Commented;
    CommentView(head, v, c);
    HeadView(head);
    HeadMatches(head, p);
    SpacedValue(v);
    ViewReads(Commented(Assigned(head, v), c), Lstrip(head), " " + v + " ", Rstrip(c), p, v);
  }

  /** A rewritten line, from the line it was. */
  lemma RewrittenLine(line: string, v: string, p: string)
    requires OneLine(line) && EditableValue(v) && PropertyName(p) && Rewritten(line, v).Some?
    ensures ReaderLine(Rewritten(line, v).value, p) == if WriterLine(line, p) then Holds(v) else Other
  {
    HeadIsHead(line);
    hide ReaderLine, EditableValue, WriterLine, PropertyName, Lstrip, Find, IsHead, Assigned, Commented;
    var equals := Find(line, '=', 0).value;
    var head := line[..equals + 1];
    LineByHead(line, equals, p);
    var comment := Find(line, '!', equals + 1);
    if comment.None? {
      PlainReads(head, v, p);
    } else {
      LstripStays(line[comment.value..]);
      CommentReads(head, v, line[comment.value..], p);
    }
  }

  lemma LineByHead(line: string, equals: nat, p: string)
    requires equals < |line| && IsHead(line[..equals + 1]) && PropertyName(p)
    ensures WriterLine(line, p) <==> WriterLine(line[..equals + 1], p)
  {
    hide WriterLine, IsHead, PropertyName;
    assert line == line[..equals + 1] + line[equals + 1..];
    WriterByHead(line[..equals + 1], line[equals + 1..], p);
  }

  /** A line with an equals sign is no bare name. */
  lemma RewrittenIsNotBare(line: string, v: string, p: string)
    requires Rewritten(line, v).Some? && PropertyName(p)
    ensures Strip(line) != p
  {
    var equals := Find(line, '=', 0).value;
    StripKeeps(line, equals);
  }

  lemma StripKeeps(s: string, i: nat)
    requires i < |s| && !IsBlank(s[i])
    ensures s[i] in Strip(s)
  {
    StrippedIsNotBlank(s);
    FieldParts(s);
    Between(Leading(s), Strip(s), Trailing(s), i);
  }

  lemma Between(a: string, v: string, b: string, i: nat)
    requires AllBlank(a) && AllBlank(b) && i < |a + v + b| && !IsBlank((a + v + b)[i])
    ensures (a + v + b)[i] in v
  {
    Located(a, v, b, i);
  }

  lemma Located(a: string, v: string, b: string, i: nat)
    requires i < |a + v + b|
    ensures (a + v + b)[i] in v || (a + v + b)[i] in a || (a + v + b)[i] in b
  {
    assert (a + v + b)[i] == if i < |a| then a[i] else if i < |a| + |v| then v[i - |a|] else b[i - |a| - |v|];
  }

  /** A line the writer leaves alone says nothing to the reader, unless it is the bare name. */
  lemma UntouchedReads(line: string, p: string)
    requires !WriterLine(line, p) && PropertyName(p)
    ensures ReaderLine(line, p) == if Strip(line) == p then Malformed else Other
  {
    hide Lstrip, Rstrip, IsBlank;
    var view := Strip(line);
    assert view <= Lstrip(line);
    if p <= view && |view| > |p| {
      assert view[|p|] == Lstrip(line)[|p|];
    }
    NameOf(p);
    if view == p {
      assert Find(view, '=', 0).None?;
    }
  }

  // ----- the whole text

  lemma {:induction false} TransformedAt(lines: seq<string>, edits: seq<Edit>,
                                         keyed: map<Keyed, string>, i: nat)
    requires TransformAll(lines, edits, keyed).Some? && i < |lines|
    ensures var target := TargetOf(lines[i], edits, keyed);
            && (target.ByKey? ==> target.key in keyed)
            && Transformed(lines[i], target, keyed) == Some(TransformAll(lines, edits, keyed).value[i])
  {
    hide Transformed, TargetOf;
    KeyTarget(lines[i], edits, keyed);
    if i < |lines| - 1 {
      TransformedAt(lines[..|lines| - 1], edits, keyed, i);
    }
  }

  lemma KeyTarget(line: string, edits: seq<Edit>, keyed: map<Keyed, string>)
    ensures var target := TargetOf(line, edits, keyed);
            target.ByKey? ==> target.key in keyed && KeyOf(line) == Some(target.key)
    ensures var target := TargetOf(line, edits, keyed);
            target.ByName? ==> EditFor(line, edits) == Some(target.edit)
    ensures var target := TargetOf(line, edits, keyed);
            target.Untouched? ==> EditFor(line, edits).None?
  {
    hide EditFor, KeyOf;
  }

  /** What the reader makes of an output line for a dictionary name. */
  lemma OutputReads(line: string, edits: seq<Edit>, keyed: map<Keyed, string>, e: Edit)
    requires OneLine(line) && Dictionary(edits) && KeysApart(edits, keyed) && e in edits
    requires var target := TargetOf(line, edits, keyed);
             (target.ByKey? ==> target.key in keyed) && Transformed(line, target, keyed).Some?
    ensures var target := TargetOf(line, edits, keyed);
            var out := Transformed(line, target, keyed).value;
            if target == ByName(e) then ReaderLine(out, e.property) == Holds(e.value) && Strip(line) != e.property
            else ReaderLine(out, e.property) == if Strip(line) == e.property then Malformed else Other
  {
    hide TargetOf, EditFor, Rewritten, ReaderLine, WriterLine, Strip, AssignmentLine, PropertyName, EditableValue, Distinct, OneLine;
    var target := TargetOf(line, edits, keyed);
    KeyTarget(line, edits, keyed);
    EditForIs(line, edits, e);
    match target
    case Untouched =>
      UntouchedReads(line, e.property);
    case ByName(f) =>
      EditForIs(line, edits, f);
      RewrittenIsNotBare(line, f.value, e.property);
      RewrittenLine(line, f.value, e.property);
    case ByKey(k) =>
      if WriterLine(line, e.property) {
        WriterIsAssignment(line, e.property);
        KeyStartsLine(line);
        OneProperty(line, e.property, k.property);
        assert false;
      }
      RewrittenIsNotBare(line, keyed[k], e.property);
      KeyedReads(line, keyed[k], e.property);
  }

  lemma RewrittenHead(line: string, v: string)
    requires Rewritten(line, v).Some?
    ensures Find(line, '=', 0).Some?
    ensures var equals := Find(line, '=', 0).value;
            equals < |Rewritten(line, v).value| && Rewritten(line, v).value[equals] == '='
            && Rewritten(line, v).value[..equals + 1] == line[..equals + 1]
  {
    hide Find, Lstrip;
  }

  /** A keyed line's new value need not be trimmed for the reader to pass it by. */
  lemma KeyedReads(line: string, v: string, p: string)
    requires Rewritten(line, v).Some? && OneLine(line) && PropertyName(p) && !WriterLine(line, p)
    ensures ReaderLine(Rewritten(line, v).value, p) == Other
  {
    hide Lstrip, Rstrip, Strip, PropertyName, ReaderLine, WriterLine, IsHead, Find, Rewritten;
    RewrittenHead(line, v);
    var equals := Find(line, '=', 0).value;
    var head := line[..equals + 1];
    var out := Rewritten(line, v).value;
    HeadIsHead(line);
    assert line == head + line[equals + 1..];
    assert out == head + out[equals + 1..];
    WriterByHead(head, line[equals + 1..], p);
    WriterByHead(head, out[equals + 1..], p);
    UntouchedReads(out, p);
    StripKeeps(out, equals);
    NameOf(p);
  }

  /** No line is just the name. */
  ghost predicate NoBareName(text: string, p: string) {
    forall i :: 0 <= i < |Plain(SplitKeep(text))| ==> Strip(Plain(SplitKeep(text))[i]) != p
  }

  lemma OnceAt(targets: seq<Target>, t: Target) returns (at: nat)
    requires multiset(targets)[t] == 1
    ensures at < |targets| && targets[at] == t && forall i :: 0 <= i < |targets| && i != at ==> targets[i] != t
  {
    assert t in multiset(targets);
    at :| at < |targets| && targets[at] == t;
    var before, after := targets[..at], targets[at + 1..];
    assert targets == before + [t] + after;
    assert multiset(before)[t] == 0 && multiset(after)[t] == 0;
    forall i | 0 <= i < |targets| && i != at ensures targets[i] != t {
      if i < at { assert before[i] == targets[i]; } else { assert after[i - at - 1] == targets[i]; }
    }
  }

  // ----- the written text splits into the written lines

  function Ended(lines: seq<string>): (r: seq<string>)
    ensures |r| == |lines| && forall i :: 0 <= i < |r| ==> r[i] == lines[i] + "\n"
  {
    seq(|lines|, i requires 0 <= i < |lines| => lines[i] + "\n")
  }

  lemma {:induction false} JoinedIsEnded(lines: seq<string>)
    requires lines != []
    ensures JoinLines(lines) == Join(Ended(lines))
  {
    assert Ended(lines)[1..] == Ended(lines[1..]);
    if |lines| > 1 {
      JoinedIsEnded(lines[1..]);
    }
  }

  lemma EndedLine(line: string)
    requires OneLine(line)
    ensures IsLine(line + "\n") && Terminated(line + "\n") && Body(line + "\n") == line
  {
    assert (line + "\n")[..|line|] == line;
  }

  lemma WrittenSplits(lines: seq<string>)
    requires lines != [] && forall i :: 0 <= i < |lines| ==> OneLine(lines[i])
    ensures Plain(SplitKeep(JoinLines(lines))) == lines
  {
    hide SplitKeep, Join, JoinLines;
    JoinedIsEnded(lines);
    forall i | 0 <= i < |lines|
      ensures IsLine(Ended(lines)[i]) && Terminated(Ended(lines)[i]) && Body(Ended(lines)[i]) == lines[i]
    {
      EndedLine(lines[i]);
    }
    hide OneLine, IsLine, Terminated, Body;
    SplitJoin(Ended(lines));
  }

  lemma PlainIsOneLine(text: string)
    ensures forall i :: 0 <= i < |Plain(SplitKeep(text))| ==> OneLine(Plain(SplitKeep(text))[i])
  {
    hide Body;
    var lines := SplitKeep(text);
    forall i | 0 <= i < |lines| ensures OneLine(Body(lines[i])) {
      BodyHasNoNewline(lines[i]);
    }
  }

  lemma RewrittenIsOneLine(line: string, v: string)
    requires OneLine(line) && OneLine(v) && Rewritten(line, v).Some?
    ensures OneLine(Rewritten(line, v).value)
  {
    hide Lstrip, Find, OneLine, Assigned, Commented;
    var equals := Find(line, '=', 0).value;
    var comment := Find(line, '!', equals + 1);
    OneLineHead(line, equals + 1);
    OneLineAssigned(line[..equals + 1], v);
    if comment.Some? {
      OneLineTail(line, comment.value);
      OneLineAssigned(Assigned(line[..equals + 1], v), Lstrip(line[comment.value..]));
    }
  }

  lemma OneLineAssigned(a: string, b: string)
    requires OneLine(a) && OneLine(b)
    ensures OneLine(Assigned(a, b)) && OneLine(Commented(a, b))
  {
  }

  lemma OneLineHead(line: string, to: nat)
    requires OneLine(line) && to <= |line|
    ensures OneLine(line[..to])
  {
  }

  lemma OneLineTail(line: string, from: nat)
    requires OneLine(line) && from <= |line|
    ensures OneLine(Lstrip(line[from..]))
  {
    hide Lstrip;
  }

  lemma TransformedIsOneLine(line: string, edits: seq<Edit>, keyed: map<Keyed, string>)
    requires OneLine(line) && Dictionary(edits) && KeysApart(edits, keyed)
    requires var target := TargetOf(line, edits, keyed);
             (target.ByKey? ==> target.key in keyed) && Transformed(line, target, keyed).Some?
    ensures OneLine(Transformed(line, TargetOf(line, edits, keyed), keyed).value)
  {
    hide TargetOf, Rewritten, EditFor, OneLine, PropertyName, AssignmentLine, Distinct;
    var target := TargetOf(line, edits, keyed);
    KeyTarget(line, edits, keyed);
    match target
    case Untouched =>
    case ByKey(k) => RewrittenIsOneLine(line, keyed[k]);
    case ByName(e) =>
      EditForIn(line, edits);
      EditableIsOneLine(e.value);
      RewrittenIsOneLine(line, e.value);
  }

  lemma EditableIsOneLine(v: string)
    requires EditableValue(v)
    ensures OneLine(v)
  {
  }

  /** The reader goes through exactly the transformed lines. */
  lemma OutputLines(text: string, edits: seq<Edit>, track: string,
                    keyed: map<Keyed, string>, out: string)
    requires Dictionary(edits) && KeysApart(edits, keyed) && PrepareModel(text, edits, track, keyed) == Some(out)
    ensures TransformAll(Plain(SplitKeep(text)), edits, keyed) == Some(Plain(SplitKeep(out)))
  {
    hide TargetOf, Transformed, SplitKeep, Plain, TransformAll, OneLine, Dictionary, KeysApart, EachOnce;
    var lines := Plain(SplitKeep(text));
    var outs := TransformAll(lines, edits, keyed).value;
    PlainIsOneLine(text);
    forall i | 0 <= i < |outs| ensures OneLine(outs[i]) {
      TransformedAt(lines, edits, keyed, i);
      TransformedIsOneLine(lines[i], edits, keyed);
    }
    WrittenSplits(outs);
  }

  /** After a successful write the reader returns a written value exactly when no line was that bare name. */
  lemma ReadsWritten(text: string, edits: seq<Edit>, track: string,
                     keyed: map<Keyed, string>, out: string, e: Edit)
    requires Dictionary(edits) && KeysApart(edits, keyed) && e in edits
    requires PrepareModel(text, edits, track, keyed) == Some(out)
    ensures ReadValue(out, e.property) == Some(e.value) <==> NoBareName(text, e.property)
  {
    hide TargetOf, Transformed, SplitKeep, Plain, TransformAll, OneLine, Dictionary, KeysApart, ReaderLine, Strip, Single, Mentions;
    var lines := Plain(SplitKeep(text));
    var outs := Plain(SplitKeep(out));
    var targets := Targets(lines, edits, keyed);
    OutputLines(text, edits, track, keyed, out);
    PlainIsOneLine(text);
    var at := OnceAt(targets, ByName(e));
    var says := ReaderSays(outs, e.property);
    forall i | 0 <= i < |lines|
      ensures if i == at then says[i] == Holds(e.value) && Strip(lines[i]) != e.property
              else says[i] == if Strip(lines[i]) == e.property then Malformed else Other
    {
      TransformedAt(lines, edits, keyed, i);
      OutputReads(lines[i], edits, keyed, e);
    }
    SingleMeaning(says, e.value);
    if NoBareName(text, e.property) {
      assert OnlyHolds(says, e.value, at);
    } else {
      var i :| 0 <= i < |lines| && Strip(lines[i]) == e.property;
      assert says[i] == Malformed;
    }
  }
}

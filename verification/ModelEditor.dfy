/** The in-place assignment editor for model text, and the laws of its edits. */
module ModelEditor {
  import opened Wrappers
  import opened TextLines

  /** Property names hold no blank and no character that ends a name or a value. */
  predicate PropertyName(p: string) {
    p != "" && forall i :: 0 <= i < |p| ==> !IsBlank(p[i]) && p[i] != '(' && p[i] != '=' && p[i] != '!'
  }

  /** Values an edit can put back: not empty, trimmed, on one line and outside the comment. */
  predicate EditableValue(v: string) {
    v != "" && Trimmed(v) && forall i :: 0 <= i < |v| ==> v[i] != '!' && v[i] != '\n'
  }

  /** What formatting a number puts in a value. */
  predicate Clean(v: string) { forall i :: 0 <= i < |v| ==> v[i] != '!' && v[i] != '\n' }

  lemma BracedIsEditable(a: string, n: string, b: string)
    requires a == "{ " && (b == "/3.6 }" || b == " s }" || b == " Hz }") && Clean(n)
    ensures EditableValue(a + n + b)
  {
    var v := a + n + b;
    assert v[0] == '{' && v[|v| - 1] == '}';
    assert Clean(a) && Clean(b);
    forall i | 0 <= i < |v| ensures v[i] != '!' && v[i] != '\n' {
      assert v[i] == if i < |a| then a[i] else if i < |a| + |n| then n[i - |a|] else b[i - |a| - |n|];
    }
  }

  /** Whether a line, its leading blanks aside, is the property's: the name, then a blank, '(' or nothing. */
  predicate AssignmentLine(line: string, p: string) {
    var view := Lstrip(line);
    p <= view && (|view| == |p| || IsBlank(view[|p|]) || view[|p|] == '(')
  }

  datatype Edit = Edit(property: string, value: string)

  /** At most one value for each name, as in a dictionary. */
  predicate Distinct(edits: seq<Edit>) {
    forall i, j :: 0 <= i < j < |edits| ==> edits[i].property != edits[j].property
  }

  // ----- one line: up to the equals sign, the value field, the comment and newline

  datatype Parts = Parts(head: string, field: string, tail: string) {
    function Line(): string { head + field + tail }
  }

  function Dissect(line: string): (r: Option<Parts>)
    ensures r.Some? ==> r.value.Line() == line
  {
    var body := Body(line);
    match Find(body, '=', 0)
    case None => None
    case Some(equals) =>
      var comment := Find(body, '!', equals + 1);
      var end := if comment.Some? then comment.value else |body|;
      Some(Parts(body[..equals + 1], body[equals + 1..end], body[end..] + Newline(line)))
  }

  /** Ends at its first '='. */
  predicate IsHead(head: string) {
    && head != "" && head[|head| - 1] == '='
    && (forall i :: 0 <= i < |head| - 1 ==> head[i] != '=')
    && (forall i :: 0 <= i < |head| ==> head[i] != '\n')
  }

  predicate IsField(field: string) {
    forall i :: 0 <= i < |field| ==> field[i] != '!' && field[i] != '\n'
  }

  /** A comment, a newline, both or nothing. */
  predicate IsTail(tail: string) {
    (tail == "" || tail == "\n" || tail[0] == '!') && forall i :: 0 <= i < |tail| - 1 ==> tail[i] != '\n'
  }

  /** The shape dissection gives: the first '=' ends the head, and the field stops before '!' and newline. */
  predicate Shaped(p: Parts) {
    IsHead(p.head) && IsField(p.field) && IsTail(p.tail)
  }

  lemma BodyHasNoNewline(line: string)
    requires IsLine(line)
    ensures forall i :: 0 <= i < |Body(line)| ==> Body(line)[i] != '\n'
  {
  }

  lemma HeadIsHead(body: string)
    requires Find(body, '=', 0).Some? && forall i :: 0 <= i < |body| ==> body[i] != '\n'
    ensures IsHead(body[..Find(body, '=', 0).value + 1])
  {
    hide Find;
  }

  lemma FieldIsField(body: string, from: nat)
    requires from <= |body| && forall i :: 0 <= i < |body| ==> body[i] != '\n'
    ensures var comment := Find(body, '!', from);
            var end := if comment.Some? then comment.value else |body|;
            IsField(body[from..end]) && (body[end..] == "" || body[end..][0] == '!')
  {
  }

  lemma TailIsTail(comment: string, newline: string)
    requires (newline == "" || newline == "\n") && (comment == "" || comment[0] == '!')
    requires forall i :: 0 <= i < |comment| ==> comment[i] != '\n'
    ensures IsTail(comment + newline)
  {
    assert comment == "" ==> comment + newline == newline;
  }

  lemma DissectIsShaped(line: string)
    requires IsLine(line) && Dissect(line).Some?
    ensures Shaped(Dissect(line).value)
  {
    hide Find, IsHead, IsField, IsTail, Body, Newline, Terminated, IsLine;
    BodyHasNoNewline(line);
    var body := Body(line);
    var equals := Find(body, '=', 0).value;
    HeadIsHead(body);
    FieldIsField(body, equals + 1);
    var comment := Find(body, '!', equals + 1);
    var end := if comment.Some? then comment.value else |body|;
    NoNewlineFrom(body, end);
    NewlineIs(line);
    TailIsTail(body[end..], Newline(line));
  }

  lemma NoNewlineFrom(body: string, end: nat)
    requires end <= |body| && forall i :: 0 <= i < |body| ==> body[i] != '\n'
    ensures forall i :: 0 <= i < |body[end..]| ==> body[end..][i] != '\n'
  {
  }

  lemma NewlineIs(line: string)
    ensures Newline(line) == "" || Newline(line) == "\n"
  {
  }

  /** A shaped line ends where its tail does. */
  lemma ShapedEnd(p: Parts)
    requires Shaped(p)
    ensures IsLine(p.Line()) && (Terminated(p.Line()) <==> Terminated(p.tail))
    ensures Body(p.Line()) == p.head + p.field + Body(p.tail) && Newline(p.Line()) == Newline(p.tail)
  {
    var line := p.Line();
    if p.tail == "" {
      assert line == p.head + p.field;
    } else {
      assert line[|line| - 1] == p.tail[|p.tail| - 1];
    }
  }

  lemma FindsHead(head: string, rest: string)
    requires IsHead(head)
    ensures Find(head + rest, '=', 0) == Some(|head| - 1)
  {
    FindIs(head + rest, '=', 0, |head| - 1);
  }

  lemma FindsComment(head: string, field: string, comment: string)
    requires IsField(field) && (comment == "" || comment[0] == '!')
    ensures Find(head + field + comment, '!', |head|)
         == if comment == "" then None else Some(|head| + |field|)
  {
    var body := head + field + comment;
    if comment != "" {
      FindIs(body, '!', |head|, |head| + |field|);
    } else {
      assert forall i :: |head| <= i < |body| ==> body[i] == field[i - |head|];
    }
  }

  lemma Reslice(head: string, field: string, comment: string)
    ensures var body := head + field + comment;
            && body[..|head|] == head && body[|head|..|head| + |field|] == field
            && body[|head| + |field|..] == comment
            && (comment == "" ==> body[|head|..|body|] == field && body[|body|..] == "")
  {
  }

  /** Only the dissected parts have that shape. */
  lemma ShapedDissects(p: Parts)
    requires Shaped(p)
    ensures IsLine(p.Line()) && Dissect(p.Line()) == Some(p) && (Terminated(p.Line()) <==> Terminated(p.tail))
  {
    ShapedEnd(p);
    TailParts(p.tail);
    hide Find, IsHead, IsField, IsTail, Body, Newline, Terminated, IsLine;
    assert p.head + p.field + Body(p.tail) == p.head + (p.field + Body(p.tail));
    FindsHead(p.head, p.field + Body(p.tail));
    FindsComment(p.head, p.field, Body(p.tail));
    Reslice(p.head, p.field, Body(p.tail));
  }

  lemma TailParts(tail: string)
    requires IsTail(tail)
    ensures Body(tail) + Newline(tail) == tail && (Body(tail) == "" || Body(tail)[0] == '!')
  {
  }

  /** The field with a new value between its old blanks; unchanged when it has that value. */
  function NewField(field: string, v: string): string {
    if Strip(field) == v then field else Leading(field) + v + Trailing(field)
  }

  lemma NewFieldHolds(field: string, v: string)
    requires EditableValue(v)
    ensures Strip(NewField(field, v)) == v
    ensures Strip(field) != v ==>
              Leading(NewField(field, v)) == Leading(field) && Trailing(NewField(field, v)) == Trailing(field)
  {
    hide AllBlank, Lstrip, Rstrip;
    StripBetween(Leading(field), v, Trailing(field));
  }

  /** Put-put on a field: only the last value matters. */
  lemma NewFieldTwice(field: string, v: string, w: string)
    requires EditableValue(v) && EditableValue(w)
    ensures NewField(NewField(field, v), w) == NewField(field, w)
  {
    hide Strip, Leading, Trailing, Trimmed, AllBlank;
    NewFieldHolds(field, v);
    if Strip(field) == w {
      FieldParts(field);
    }
  }

  lemma NewFieldClean(field: string, v: string)
    requires EditableValue(v) && IsField(field)
    ensures IsField(NewField(field, v))
  {
    hide Lstrip, Rstrip, AllBlank;
  }

  function EditLine(line: string, v: string): Option<string> {
    match Dissect(line)
    case None => None
    case Some(p) => Some(p.(field := NewField(p.field, v)).Line())
  }

  lemma EditKeepsShape(p: Parts, v: string)
    requires Shaped(p) && EditableValue(v)
    ensures Shaped(p.(field := NewField(p.field, v)))
  {
    NewFieldClean(p.field, v);
    hide NewField;
  }

  /** An edited line dissects to the same head and tail and the new field. */
  lemma EditedLine(line: string, v: string)
    requires IsLine(line) && EditableValue(v) && Dissect(line).Some?
    ensures var p := Dissect(line).value;
            var line' := EditLine(line, v).value;
            && IsLine(line') && (Terminated(line') <==> Terminated(line))
            && Dissect(line') == Some(p.(field := NewField(p.field, v)))
  {
    var p := Dissect(line).value;
    DissectIsShaped(line);
    EditKeepsShape(p, v);
    ShapedDissects(p);
    ShapedDissects(p.(field := NewField(p.field, v)));
    hide NewField, Shaped;
  }

  lemma EditPresent(line: string, v: string)
    ensures EditLine(line, v).Some? <==> Dissect(line).Some?
  {
  }

  // ----- which lines match depends only on the head

  lemma MatchByHead(p: Parts, q: string)
    requires Shaped(p) && PropertyName(q)
    ensures AssignmentLine(p.Line(), q) <==> AssignmentLine(p.head, q)
  {
    hide Lstrip, AllBlank, IsField, IsTail;
    HeadEnds(p.head);
    assert p.Line() == p.head + (p.field + p.tail);
    LstripPrefix(p.head, p.field + p.tail);
    hide IsHead;
    NameEndsEarly(q, Lstrip(p.head), p.field + p.tail);
  }

  lemma HeadEnds(head: string)
    requires IsHead(head)
    ensures !AllBlank(head) && Lstrip(head) != "" && Lstrip(head)[|Lstrip(head)| - 1] == '='
  {
    hide Lstrip;
    assert !IsBlank(head[|head| - 1]);
    NotAllBlank(head);
  }

  /** A name without '=' that starts a text starts it before its first '='. */
  lemma NameEndsEarly(q: string, view: string, rest: string)
    requires view != "" && view[|view| - 1] == '=' && forall i :: 0 <= i < |q| ==> q[i] != '='
    ensures q <= view + rest <==> q <= view
    ensures q <= view ==> |q| < |view|
  {
    assert (view + rest)[|view| - 1] == '=';
    assert (view + rest)[..|view|] == view;
  }

  /** No line belongs to two properties. */
  lemma OneProperty(line: string, p: string, q: string)
    requires PropertyName(p) && PropertyName(q) && AssignmentLine(line, p) && AssignmentLine(line, q)
    ensures p == q
  {
    NamesAgree(Lstrip(line), p, q);
    NamesAgree(Lstrip(line), q, p);
  }

  lemma NamesAgree(view: string, p: string, q: string)
    requires PropertyName(q) && p <= view && q <= view
    requires |view| == |p| || IsBlank(view[|p|]) || view[|p|] == '('
    ensures |q| <= |p| && (|q| == |p| ==> p == q)
  {
  }

  // ----- the whole text

  /** The positions of the property's lines, in order. */
  function Matches(lines: seq<string>, p: string): (r: seq<nat>)
    ensures forall k :: 0 <= k < |r| ==> r[k] < |lines|
  {
    if lines == [] then []
    else
      var last := |lines| - 1;
      Matches(lines[..last], p) + (if AssignmentLine(lines[last], p) then [last] else [])
  }

  lemma {:induction false} MatchesAre(lines: seq<string>, p: string)
    ensures forall i: nat :: i in Matches(lines, p) <==> i < |lines| && AssignmentLine(lines[i], p)
    ensures forall i, j :: 0 <= i < j < |Matches(lines, p)| ==> Matches(lines, p)[i] < Matches(lines, p)[j]
  {
    hide AssignmentLine;
    if lines != [] {
      MatchesAre(lines[..|lines| - 1], p);
    }
  }

  lemma OnlyMatch(lines: seq<string>, p: string)
    requires |Matches(lines, p)| == 1
    ensures var i := Matches(lines, p)[0];
            i < |lines| && AssignmentLine(lines[i], p) && forall j: nat :: j < |lines| && j != i ==> !AssignmentLine(lines[j], p)
  {
    hide AssignmentLine;
    MatchesAre(lines, p);
    assert Matches(lines, p)[0] in Matches(lines, p);
  }

  /** Replaces the value on the property's only line; None where the code raises. */
  function ReplaceIn(lines: seq<string>, p: string, v: string): (r: Option<seq<string>>)
    ensures r.Some? ==> |r.value| == |lines|
  {
    var found := Matches(lines, p);
    if |found| != 1 then None
    else
      match EditLine(lines[found[0]], v)
      case None => None
      case Some(line) => Some(lines[found[0] := line])
  }

  function Replace(text: string, p: string, v: string): Option<string> {
    match ReplaceIn(SplitKeep(text), p, v)
    case None => None
    case Some(lines) => Some(Join(lines))
  }

  lemma {:induction false} SameMatches(a: seq<string>, b: seq<string>, p: string)
    requires |a| == |b| && forall i :: 0 <= i < |a| ==> (AssignmentLine(a[i], p) <==> AssignmentLine(b[i], p))
    ensures Matches(a, p) == Matches(b, p)
  {
    hide AssignmentLine;
    if a != [] {
      SameMatches(a[..|a| - 1], b[..|b| - 1], p);
    }
  }

  /** What a successful edit did: one line, same head and tail, its field newly valued. */
  lemma ReplaceFrames(lines: seq<string>, p: string, v: string)
    requires WellFormed(lines) && EditableValue(v) && ReplaceIn(lines, p, v).Some?
    ensures |Matches(lines, p)| == 1
    ensures var i := Matches(lines, p)[0];
            var lines' := ReplaceIn(lines, p, v).value;
            && WellFormed(lines') && lines' == lines[i := lines'[i]]
            && (Terminated(lines'[i]) <==> Terminated(lines[i]))
            && Dissect(lines[i]).Some?
            && Dissect(lines'[i]) == Some(Dissect(lines[i]).value.(field := NewField(Dissect(lines[i]).value.field, v)))
  {
    hide Dissect, NewField, AssignmentLine, Matches, WellFormed, IsLine, Terminated, EditableValue, EditLine;
    var i := Matches(lines, p)[0];
    LineIsLine(lines, i);
    EditPresent(lines[i], v);
    EditedLine(lines[i], v);
    WellFormedUpdate(lines, i, EditLine(lines[i], v).value);
  }

  lemma LineIsLine(lines: seq<string>, i: nat)
    requires WellFormed(lines) && i < |lines|
    ensures IsLine(lines[i])
  {
  }

  lemma WellFormedUpdate(lines: seq<string>, i: nat, line: string)
    requires WellFormed(lines) && i < |lines| && IsLine(line) && (Terminated(line) <==> Terminated(lines[i]))
    ensures WellFormed(lines[i := line])
  {
    hide IsLine, Terminated;
  }

  /** An edit leaves every property's lines where they were. */
  lemma ReplaceKeepsMatches(lines: seq<string>, p: string, v: string, q: string)
    requires WellFormed(lines) && EditableValue(v) && ReplaceIn(lines, p, v).Some? && PropertyName(q)
    ensures Matches(ReplaceIn(lines, p, v).value, q) == Matches(lines, q)
  {
    hide AssignmentLine, NewField, Dissect;
    var i := Matches(lines, p)[0];
    var lines' := ReplaceIn(lines, p, v).value;
    ReplaceFrames(lines, p, v);
    SameHeadMatches(lines[i], lines'[i], q);
    SameMatches(lines, lines', q);
  }

  lemma SameHeadMatches(line: string, line': string, q: string)
    requires IsLine(line) && IsLine(line') && PropertyName(q)
    requires Dissect(line).Some? && Dissect(line').Some? && Dissect(line).value.head == Dissect(line').value.head
    ensures AssignmentLine(line, q) <==> AssignmentLine(line', q)
  {
    DissectIsShaped(line);
    DissectIsShaped(line');
    MatchByHead(Dissect(line).value, q);
    MatchByHead(Dissect(line').value, q);
  }

  lemma EditLineTwice(line: string, v: string, w: string)
    requires IsLine(line) && EditableValue(v) && EditableValue(w) && Dissect(line).Some?
    ensures EditLine(EditLine(line, v).value, w) == EditLine(line, w)
  {
    hide NewField;
    var p := Dissect(line).value;
    EditedLine(line, v);
    NewFieldTwice(p.field, v, w);
  }

  /** Put-put on lines. */
  lemma ReplaceInTwice(lines: seq<string>, p: string, v: string, w: string)
    requires WellFormed(lines) && PropertyName(p) && EditableValue(v) && EditableValue(w) && ReplaceIn(lines, p, v).Some?
    ensures ReplaceIn(ReplaceIn(lines, p, v).value, p, w) == ReplaceIn(lines, p, w)
  {
    hide AssignmentLine, NewField, Dissect, Matches, EditLine;
    ReplaceFrames(lines, p, v);
    ReplaceKeepsMatches(lines, p, v, p);
    var i := Matches(lines, p)[0];
    EditPresent(lines[i], v);
    LineIsLine(lines, i);
    EditLineTwice(lines[i], v, w);
    var lines' := ReplaceIn(lines, p, v).value;
    EditPresent(lines[i], w);
    EditPresent(lines'[i], w);
    Overwritten(lines, i, lines'[i], EditLine(lines[i], w).value);
  }

  lemma Overwritten(lines: seq<string>, i: nat, a: string, b: string)
    requires i < |lines|
    ensures lines[i := a][i := b] == lines[i := b]
  {
  }

  lemma Swapped(lines: seq<string>, i: nat, a: string, j: nat, b: string)
    requires i < |lines| && j < |lines| && i != j
    ensures lines[i := a][j := b] == lines[j := b][i := a]
    ensures lines[i := a][j] == lines[j] && lines[j := b][i] == lines[i]
  {
  }

  lemma DistinctMatches(lines: seq<string>, p: string, q: string)
    requires PropertyName(p) && PropertyName(q) && p != q && |Matches(lines, p)| == 1 && |Matches(lines, q)| == 1
    ensures Matches(lines, p)[0] != Matches(lines, q)[0]
  {
    hide AssignmentLine, PropertyName;
    OnlyMatch(lines, p);
    OnlyMatch(lines, q);
    if AssignmentLine(lines[Matches(lines, p)[0]], q) {
      OneProperty(lines[Matches(lines, p)[0]], p, q);
    }
  }

  /** Edits of distinct properties commute on lines, failures included. */
  lemma ReplaceInCommutes(lines: seq<string>, p: string, v: string, q: string, w: string)
    requires WellFormed(lines) && PropertyName(p) && PropertyName(q) && p != q && EditableValue(v) && EditableValue(w)
    requires ReplaceIn(lines, p, v).Some?
    ensures var first := ReplaceIn(ReplaceIn(lines, p, v).value, q, w);
            if ReplaceIn(lines, q, w).None? then first.None?
            else first == ReplaceIn(ReplaceIn(lines, q, w).value, p, v)
  {
    hide NewField, Dissect, Matches, EditLine, AssignmentLine, PropertyName, EditableValue;
    ReplaceFrames(lines, p, v);
    ReplaceKeepsMatches(lines, p, v, q);
    if |Matches(lines, q)| == 1 {
      DistinctMatches(lines, p, q);
      var i, j := Matches(lines, p)[0], Matches(lines, q)[0];
      var a, b := EditLine(lines[i], v), EditLine(lines[j], w);
      Swapped(lines, i, a.value, j, if b.Some? then b.value else "");
      if ReplaceIn(lines, q, w).Some? {
        ReplaceKeepsMatches(lines, q, w, p);
      }
    }
  }

  // ----- the laws on text

  lemma ReplaceOnLines(text: string, p: string, v: string)
    requires EditableValue(v)
    ensures Replace(text, p, v).Some? <==> ReplaceIn(SplitKeep(text), p, v).Some?
    ensures Replace(text, p, v).Some? ==> SplitKeep(Replace(text, p, v).value) == ReplaceIn(SplitKeep(text), p, v).value
  {
    hide ReplaceIn;
    if Replace(text, p, v).Some? {
      ReplaceFrames(SplitKeep(text), p, v);
      SplitJoin(ReplaceIn(SplitKeep(text), p, v).value);
    }
  }

  /** Put-put: after one edit of a property, another leaves what it alone would have left. */
  lemma PutPut(text: string, p: string, v: string, w: string)
    requires PropertyName(p) && EditableValue(v) && EditableValue(w) && Replace(text, p, v).Some?
    ensures Replace(Replace(text, p, v).value, p, w) == Replace(text, p, w)
  {
    hide ReplaceIn;
    ReplaceOnLines(text, p, v);
    ReplaceInTwice(SplitKeep(text), p, v, w);
  }

  /** An edit made twice is the edit made once. */
  lemma Idempotent(text: string, p: string, v: string)
    requires PropertyName(p) && EditableValue(v) && Replace(text, p, v).Some?
    ensures Replace(Replace(text, p, v).value, p, v) == Replace(text, p, v)
  {
    PutPut(text, p, v, v);
  }

  /** Two edits in a row; None where either raises. */
  function ReplaceBoth(text: string, p: string, v: string, q: string, w: string): Option<string> {
    match Replace(text, p, v)
    case None => None
    case Some(t) => Replace(t, q, w)
  }

  /** Edits of distinct properties commute, and raise in one order iff they raise in the other. */
  lemma EditsCommute(text: string, p: string, v: string, q: string, w: string)
    requires PropertyName(p) && PropertyName(q) && p != q && EditableValue(v) && EditableValue(w)
    ensures ReplaceBoth(text, p, v, q, w) == ReplaceBoth(text, q, w, p, v)
  {
    hide ReplaceIn;
    var lines := SplitKeep(text);
    ReplaceOnLines(text, p, v);
    ReplaceOnLines(text, q, w);
    if Replace(text, p, v).Some? {
      ReplaceInCommutes(lines, p, v, q, w);
    }
    if Replace(text, q, w).Some? {
      ReplaceInCommutes(lines, q, w, p, v);
    }
  }

  // ----- reading back: the remaining lens laws

  /** The stripped value on a property's only line. */
  function ValueIn(lines: seq<string>, p: string): Option<string> {
    var found := Matches(lines, p);
    if |found| != 1 then None
    else
      match Dissect(lines[found[0]])
      case None => None
      case Some(parts) => Some(Strip(parts.field))
  }

  function ValueOf(text: string, p: string): Option<string> { ValueIn(SplitKeep(text), p) }

  /** An edit succeeds exactly where there is a value to edit. */
  lemma EditsWhereReadable(text: string, p: string, v: string)
    ensures Replace(text, p, v).Some? <==> ValueOf(text, p).Some?
  {
    hide Matches, Dissect, NewField, AssignmentLine;
    var lines := SplitKeep(text);
    if |Matches(lines, p)| == 1 {
      EditPresent(lines[Matches(lines, p)[0]], v);
    }
  }

  /** Put-get, and nothing else is written: a later read of any property sees the edit or the old value. */
  lemma PutGet(text: string, p: string, v: string, q: string)
    requires PropertyName(p) && PropertyName(q) && EditableValue(v) && Replace(text, p, v).Some?
    ensures ValueOf(Replace(text, p, v).value, q) == if q == p then Some(v) else ValueOf(text, q)
  {
    hide Matches, Dissect, NewField, AssignmentLine, ReplaceIn, Strip, WellFormed, PropertyName, EditableValue, SplitKeep;
    var lines := SplitKeep(text);
    ReplaceOnLines(text, p, v);
    ReplaceFrames(lines, p, v);
    ReplaceKeepsMatches(lines, p, v, q);
    if q == p {
      NewFieldHolds(Dissect(lines[Matches(lines, p)[0]]).value.field, v);
    } else if |Matches(lines, q)| == 1 {
      DistinctMatches(lines, p, q);
    }
  }

  /** Get-put: writing the value already there changes nothing. */
  lemma GetPut(text: string, p: string, v: string)
    requires ValueOf(text, p) == Some(v)
    ensures Replace(text, p, v) == Some(text)
  {
    hide Matches, AssignmentLine, Strip;
    var lines := SplitKeep(text);
    var i := Matches(lines, p)[0];
    assert Dissect(lines[i]).value.Line() == lines[i];
    assert lines[i := lines[i]] == lines;
  }

  // ----- the editor as it runs

  method CollectMatches(lines: seq<string>, p: string) returns (matches: seq<nat>)
    ensures matches == Matches(lines, p)
  {
    hide AssignmentLine;
    matches := [];
    for index := 0 to |lines|
      invariant matches == Matches(lines[..index], p)
    {
      assert lines[..index + 1][..index] == lines[..index];
      if AssignmentLine(lines[index], p) {
        matches := matches + [index];
      }
    }
    assert lines[..|lines|] == lines;
  }

  lemma Assembled(line: string, v: string, head: string, field: string, suffix: string, newline: string)
    requires Dissect(line) == Some(Parts(head, field, suffix + newline))
    ensures EditLine(line, v) == Some(if Strip(field) == v then line else
                                        head + Leading(field) + v + Trailing(field) + suffix + newline)
  {
    hide Lstrip, Rstrip, Strip, Leading, Trailing, Dissect;
    var p := Parts(head, field, suffix + newline);
    assert p.Line() == line by { DissectedLine(line); }
    Regroup(head, Leading(field), v, Trailing(field), suffix, newline);
  }

  lemma DissectedLine(line: string)
    ensures Dissect(line).Some? ==> Dissect(line).value.Line() == line
  {
  }

  /** Cuts a line at its first equals sign and comment; keeps the blanks around the old value. */
  method RewriteValue(line: string, v: string) returns (r: Option<string>)
    ensures r == EditLine(line, v)
  {
    hide Lstrip, Rstrip, Newline, Body, Find, Strip;
    var newline := Newline(line);
    var body := Body(line);
    var equals := Find(body, '=', 0);
    if equals.None? {
      return None;
    }
    var comment := Find(body, '!', equals.value + 1);
    var valueEnd := if comment.None? then |body| else comment.value;
    var originalField := body[equals.value + 1..valueEnd];
    var suffix := if comment.None? then "" else body[comment.value..];
    assert Dissect(line) == Some(Parts(body[..equals.value + 1], originalField, suffix + newline)) by {
      assert suffix == body[valueEnd..];
    }
    hide Dissect, EditLine;
    Assembled(line, v, body[..equals.value + 1], originalField, suffix, newline);
    if Strip(originalField) == v {
      return Some(line);
    }
    var leading := originalField[..|originalField| - |Lstrip(originalField)|];
    var trailing := originalField[|Rstrip(originalField)|..];
    r := Some(body[..equals.value + 1] + leading + v + trailing + suffix + newline);
  }

  /** The only matching line is rewritten where it stands. */
  method ReplaceAssignment(text: string, p: string, v: string) returns (r: Option<string>)
    ensures r == Replace(text, p, v)
  {
    hide EditLine, Matches;
    var lines := SplitKeep(text);
    var matches := CollectMatches(lines, p);
    if |matches| != 1 {
      return None;
    }
    var edited := RewriteValue(lines[matches[0]], v);
    if edited.None? {
      return None;
    }
    lines := lines[matches[0] := edited.value];
    r := Some(Join(lines));
  }

  lemma Regroup(head: string, a: string, v: string, b: string, comment: string, newline: string)
    ensures head + a + v + b + comment + newline == head + (a + v + b) + (comment + newline)
  {
  }
}

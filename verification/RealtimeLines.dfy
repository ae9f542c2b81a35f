/** The realtime writer and reader line by line, by the shape of the lines alone. */
module RealtimeLines {
  import opened Wrappers
  import opened TextLines
  import opened ModelEditor
  import opened Readings
  import opened HistoricalLines
  import opened ScopedLines
  import opened RealtimeModel
  import opened WriterReader

  // ----- which lines carry a name

  /** Blanks, the name, and then a space, a tab or a parenthesis. */
  ghost predicate Carries(line: string, p: string, blanks: string, rest: string) {
    line == blanks + p + rest && AllBlank(blanks) && rest != "" && rest[0] in {' ', '\t', '('}
  }

  lemma WriterLineIs(line: string, p: string)
    requires PropertyName(p)
    ensures WriterLine(line, p) <==> exists blanks, rest :: Carries(line, p, blanks, rest)
  {
    hide Lstrip, AllBlank, IsBlank, PropertyName;
    if WriterLine(line, p) {
      var view := Lstrip(line);
      LstripSplits(line);
      assert view == p + view[|p|..];
      assert Leading(line) + (p + view[|p|..]) == Leading(line) + p + view[|p|..];
      assert Carries(line, p, Leading(line), view[|p|..]);
    }
    forall blanks, rest | Carries(line, p, blanks, rest) ensures WriterLine(line, p) {
      CarriesIsLine(line, p, blanks, rest);
    }
  }

  lemma CarriesIsLine(line: string, p: string, blanks: string, rest: string)
    requires PropertyName(p) && Carries(line, p, blanks, rest)
    ensures WriterLine(line, p)
  {
    hide Lstrip, AllBlank, IsBlank;
    var view := p + rest;
    assert line == blanks + view && view[0] == p[0] && view[|p|] == rest[0];
    LstripBlanks(blanks, view);
    LstripStays(view);
  }

  /** The reader's view of a line starts with the name, and then nothing, a space, a tab or a parenthesis. */
  predicate Shows(view: string, p: string) {
    p <= view && (view == p || view[|p|] in {' ', '\t', '('})
  }

  /** What the reader makes of a line: other, malformed without an equals sign, or the stripped field after the first one. */
  lemma ReaderLineIs(line: string, p: string)
    ensures ReaderLine(line, p) == Other <==> !Shows(Strip(line), p)
    ensures ReaderLine(line, p) == Malformed <==> Shows(Strip(line), p) && Lacks(Strip(line), '=')
    ensures forall v :: ReaderLine(line, p) == Holds(v) <==> Shows(Strip(line), p) && Gives(Strip(line), v)
  {
    hide Find, Strip, Gives;
    var view := Strip(line);
    forall v ensures ReaderLine(line, p) == Holds(v) <==> Shows(view, p) && Gives(view, v) {
      GivesIs(view, v);
    }
  }

  // ----- what rewriting gives

  /** What follows the equals sign: the value, and the comment if there is one. */
  function Valued(v: string, comment: string): string { " " + v + (if comment == "" then "" else " " + comment) }

  /** The line up to its first equals sign, and what then follows. */
  ghost predicate RewrittenAs(line: string, v: string, out: string, before: string, field: string, comment: string) {
    Holding(line, before, field, comment) && out == before + "=" + Valued(v, comment)
  }

  lemma RewrittenIs(line: string, v: string)
    ensures Rewritten(line, v).None? <==> Lacks(line, '=')
    ensures Rewritten(line, v).Some? ==>
              exists before, field, comment :: RewrittenAs(line, v, Rewritten(line, v).value, before, field, comment)
  {
    if Rewritten(line, v).Some? {
      FindsHolding(line);
      var e := Find(line, '=', 0).value;
      hide Find, Holding, Valued, Assigned, Commented;
      var before := line[..e];
      assert line[..e + 1] == before + "=";
      match Find(line, '!', e + 1)
      case None =>
        PlainValue(before, v);
        assert line[|line|..] == "";
        assert RewrittenAs(line, v, Rewritten(line, v).value, before, line[e + 1..|line|], line[|line|..]);
      case Some(end) =>
        CommentStays(line, end);
        CommentedValue(before, v, line[end..]);
        assert RewrittenAs(line, v, Rewritten(line, v).value, before, line[e + 1..end], line[end..]);
    }
  }

  lemma PlainValue(before: string, v: string)
    ensures Assigned(before + "=", v) == before + "=" + Valued(v, "")
  {
  }

  lemma CommentedValue(before: string, v: string, comment: string)
    requires comment != ""
    ensures Commented(Assigned(before + "=", v), comment) == before + "=" + Valued(v, comment)
  {
  }

  lemma CommentStays(line: string, end: nat)
    requires end < |line| && line[end] == '!'
    ensures Lstrip(line[end..]) == line[end..] && line[end..] != ""
  {
  }

  lemma HoldingSplits(line: string, before: string, field: string, comment: string)
    requires Holding(line, before, field, comment)
    ensures line == before + "=" + (field + comment) && Lacks(before, '=')
  {
  }

  /** Rewriting keeps a line's key, and a line without one gets none. */
  lemma RewriteKeepsKey(line: string, v: string)
    requires Rewritten(line, v).Some?
    ensures KeyOf(Rewritten(line, v).value) == KeyOf(line)
  {
    var out := Rewritten(line, v).value;
    hide KeyOf, Rewritten, Rendered, IsKeyText, Holding, Valued;
    RewrittenIs(line, v);
    var before, field, comment :| RewrittenAs(line, v, out, before, field, comment);
    HoldingSplits(line, before, field, comment);
    if KeyOf(line).Some? {
      KeyCarriesOver(line, out, before, field + comment, Valued(v, comment));
    } else if KeyOf(out).Some? {
      KeyCarriesOver(out, line, before, Valued(v, comment), field + comment);
    }
  }

  /** A key stands before the first equals sign. */
  lemma KeyCarriesOver(line: string, other: string, before: string, after: string, otherAfter: string)
    requires KeyOf(line).Some? && line == before + "=" + after && other == before + "=" + otherAfter && Lacks(before, '=')
    ensures KeyOf(other) == KeyOf(line)
  {
    hide KeyOf, IsKeyText;
    var name, digits, owner, b, value := KeyIsRendered(line);
    KeyText(name, digits, owner, b);
    hide Rendered;
    var text := KeyBefore(name, digits, owner, b);
    RenderedSplits(name, digits, owner, b, value);
    FirstEquals(before, after, text, value);
    RenderedSplits(name, digits, owner, b, otherAfter);
    RenderedReads(name, digits, owner, b, otherAfter);
  }

  function KeyBefore(name: string, digits: Option<string>, owner: string, b: seq<string>): string
    requires |b| == 7
  {
    b[0] + (name + (b[1] + ("(" + (b[2] + (IndexText(digits, b[5], b[6]) + (owner + (b[3] + (")" + b[4]))))))))
  }

  lemma RenderedSplits(name: string, digits: Option<string>, owner: string, b: seq<string>, value: string)
    requires |b| == 7
    ensures Rendered(name, digits, owner, b, value) == KeyBefore(name, digits, owner, b) + "=" + value
  {
    hide IndexText;
  }

  lemma KeyText(name: string, digits: Option<string>, owner: string, b: seq<string>)
    requires IsKeyText(name, digits, owner, b)
    ensures |b| == 7 && Lacks(KeyBefore(name, digits, owner, b), '=')
  {
    BlankLacks(b[0]); BlankLacks(b[1]); BlankLacks(b[2]); BlankLacks(b[3]); BlankLacks(b[4]); BlankLacks(b[5]); BlankLacks(b[6]);
    KindLacks(name);
    OwnerLacks(owner);
    hide AllBlank, AllOf, Lacks;
    IndexLacks(digits, b[5], b[6]);
    MarksLack();
    BothLack(")", b[4]);
    BothLack(b[3], ")" + b[4]);
    var tail := owner + (b[3] + (")" + b[4]));
    BothLack(owner, b[3] + (")" + b[4]));
    BothLack(IndexText(digits, b[5], b[6]), tail);
    BothLack(b[2], IndexText(digits, b[5], b[6]) + tail);
    BothLack("(", b[2] + (IndexText(digits, b[5], b[6]) + tail));
    BothLack(b[1], "(" + (b[2] + (IndexText(digits, b[5], b[6]) + tail)));
    BothLack(name, b[1] + ("(" + (b[2] + (IndexText(digits, b[5], b[6]) + tail))));
    BothLack(b[0], name + (b[1] + ("(" + (b[2] + (IndexText(digits, b[5], b[6]) + tail)))));
  }

  lemma BothLack(a: string, b: string)
    requires Lacks(a, '=') && Lacks(b, '=')
    ensures Lacks(a + b, '=')
  {
  }

  lemma BlankLacks(b: string)
    requires AllBlank(b)
    ensures Lacks(b, '=')
  {
  }

  lemma MarksLack()
    ensures Lacks("(", '=') && Lacks(")", '=') && Lacks(",", '=')
  {
  }

  lemma KindLacks(name: string)
    requires AllOf(name, NameChar)
    ensures Lacks(name, '=')
  {
  }

  lemma OwnerLacks(owner: string)
    requires |owner| > 1 && owner[0] == '$' && AllOf(owner[1..], ObjectChar)
    ensures Lacks(owner, '=')
  {
    forall i | 0 <= i < |owner| ensures owner[i] != '=' {
      if i > 0 {
        assert ObjectChar(owner[1..][i - 1]);
      }
    }
  }

  lemma IndexLacks(digits: Option<string>, before: string, after: string)
    requires digits.Some? ==> AllOf(digits.value, Digit)
    requires Lacks(before, '=') && Lacks(after, '=')
    ensures Lacks(IndexText(digits, before, after), '=')
  {
  }

  lemma FirstEquals(a: string, x: string, b: string, y: string)
    requires a + "=" + x == b + "=" + y && Lacks(a, '=') && Lacks(b, '=')
    ensures a == b && x == y
  {
    var s := a + "=" + x;
    assert s[|a|] == '=' && s[|b|] == '=';
    assert forall i :: 0 <= i < |a| ==> s[i] == a[i];
    assert forall i :: 0 <= i < |b| ==> s[i] == b[i];
    assert |a| == |b|;
    assert s[..|a|] == a && s[..|b|] == b && s[|a| + 1..] == x && s[|b| + 1..] == y;
  }

  // ----- the keyed values read back

  /** The field of a line, before its comment, is this value. */
  lemma RewriteGives(line: string, v: string)
    requires Rewritten(line, v).Some? && EditableValue(v)
    ensures Gives(Rewritten(line, v).value, v)
  {
    var out := Rewritten(line, v).value;
    hide Rewritten, Holding, Strip, Trimmed;
    RewrittenIs(line, v);
    var before, field, comment :| RewrittenAs(line, v, out, before, field, comment);
    ValueHolds(line, v, before, field, comment);
  }

  lemma ValueHolds(line: string, v: string, before: string, field: string, comment: string)
    requires Holding(line, before, field, comment) && EditableValue(v)
    ensures Gives(before + "=" + Valued(v, comment), v)
  {
    var gap := if comment == "" then "" else " ";
    var newField := " " + v + gap;
    hide Lstrip, Rstrip;
    StripBetween(" ", v, gap);
    assert before + "=" + Valued(v, comment) == before + "=" + newField + comment;
    assert Holding(before + "=" + Valued(v, comment), before, newField, comment);
  }

  /** The line at `at` alone has the key, and its field is the value. */
  ghost predicate OnlyKeyed(lines: seq<string>, key: Keyed, v: string, at: nat) {
    && at < |lines| && KeyOf(lines[at]) == Some(key) && Gives(lines[at], v)
    && forall i :: 0 <= i < |lines| && i != at ==> KeyOf(lines[i]) != Some(key)
  }

  lemma {:induction false} OnceIn<T>(s: seq<T>, x: T)
    ensures multiset(s)[x] == 0 <==> forall i :: 0 <= i < |s| ==> s[i] != x
    ensures multiset(s)[x] == 1 <==> exists at: nat :: OnlyAt(s, x, at)
  {
    if s != [] {
      var init, last := s[..|s| - 1], s[|s| - 1];
      assert s == init + [last];
      OnceIn(init, x);
      if last == x {
        assert multiset(init)[x] == 0 ==> OnlyAt(s, x, |s| - 1);
        if at: nat :| OnlyAt(s, x, at) {
          assert at == |s| - 1;
          forall i | 0 <= i < |init| ensures init[i] != x {
            assert s[i] == init[i];
          }
        }
      } else {
        forall at: nat ensures OnlyAt(s, x, at) <==> OnlyAt(init, x, at) {
          OnlyAtInit(s, x, at);
        }
      }
    }
  }

  ghost predicate OnlyAt<T>(s: seq<T>, x: T, at: nat) {
    at < |s| && s[at] == x && forall i :: 0 <= i < |s| && i != at ==> s[i] != x
  }

  lemma OnlyAtInit<T>(s: seq<T>, x: T, at: nat)
    requires s != [] && s[|s| - 1] != x
    ensures OnlyAt(s, x, at) <==> OnlyAt(s[..|s| - 1], x, at)
  {
    if OnlyAt(s[..|s| - 1], x, at) {
      forall i | 0 <= i < |s| && i != at ensures s[i] != x {
        assert i < |s| - 1 ==> s[i] == s[..|s| - 1][i];
      }
    }
  }

  /** The transformed line has the key of the line it came from. */
  lemma TransformKeepsKey(line: string, edits: seq<Edit>, keyed: map<Keyed, string>)
    requires var target := TargetOf(line, edits, keyed);
             (target.ByKey? ==> target.key in keyed) && Transformed(line, target, keyed).Some?
    ensures var target := TargetOf(line, edits, keyed);
            KeyOf(Transformed(line, target, keyed).value) == KeyOf(line)
  {
    hide KeyOf, Rewritten, EditFor;
    match TargetOf(line, edits, keyed)
    case Untouched =>
    case ByKey(key) => RewriteKeepsKey(line, keyed[key]);
    case ByName(edit) => RewriteKeepsKey(line, edit.value);
  }

  /** After a successful write each key stands in exactly one line, which gives its value. */
  lemma KeyedReadsWritten(text: string, edits: seq<Edit>, track: string, keyed: map<Keyed, string>, out: string, key: Keyed)
    requires Dictionary(edits) && KeysApart(edits, keyed) && PrepareModel(text, edits, track, keyed) == Some(out)
    requires key in keyed && EditableValue(keyed[key])
    ensures exists at: nat :: OnlyKeyed(Plain(SplitKeep(out)), key, keyed[key], at)
  {
    var at := KeyedOnce(text, edits, track, keyed, key);
    OutputLines(text, edits, track, keyed, out);
    hide PrepareModel, SplitKeep, Plain, TransformAll, OnlyKeyed, OnlyAt, Targets, Dictionary, KeysApart, EditableValue;
    KeyedLines(Plain(SplitKeep(text)), edits, keyed, Plain(SplitKeep(out)), key, at);
  }

  lemma KeyedOnce(text: string, edits: seq<Edit>, track: string, keyed: map<Keyed, string>, key: Keyed) returns (at: nat)
    requires PrepareModel(text, edits, track, keyed).Some? && key in keyed
    ensures OnlyAt(Targets(Plain(SplitKeep(text)), edits, keyed), ByKey(key), at)
  {
    hide SplitKeep, Plain, Targets, TransformAll, OnlyAt, Mentions, JoinLines;
    var targets := Targets(Plain(SplitKeep(text)), edits, keyed);
    assert EachOnce(targets, edits, keyed);
    OnceIn(targets, ByKey(key));
    at :| OnlyAt(targets, ByKey(key), at);
  }

  lemma KeyedLines(lines: seq<string>, edits: seq<Edit>, keyed: map<Keyed, string>, outs: seq<string>, key: Keyed, at: nat)
    requires TransformAll(lines, edits, keyed) == Some(outs) && key in keyed && EditableValue(keyed[key])
    requires OnlyAt(Targets(lines, edits, keyed), ByKey(key), at)
    ensures OnlyKeyed(outs, key, keyed[key], at)
  {
    hide KeyOf, TransformAll, Transformed, Gives, EditableValue, TargetOf;
    forall i | 0 <= i < |outs|
      ensures KeyOf(outs[i]) == KeyOf(lines[i]) && (KeyOf(lines[i]) == Some(key) <==> TargetOf(lines[i], edits, keyed) == ByKey(key))
    {
      TransformedAt(lines, edits, keyed, i);
      TransformKeepsKey(lines[i], edits, keyed);
      KeyTargets(lines[i], edits, keyed, key);
    }
    TransformedAt(lines, edits, keyed, at);
    KeyedGives(lines[at], edits, keyed, key);
  }

  lemma KeyTargets(line: string, edits: seq<Edit>, keyed: map<Keyed, string>, key: Keyed)
    requires key in keyed
    ensures TargetOf(line, edits, keyed) == ByKey(key) <==> KeyOf(line) == Some(key)
  {
    hide KeyOf, EditFor;
  }

  lemma KeyedGives(line: string, edits: seq<Edit>, keyed: map<Keyed, string>, key: Keyed)
    requires key in keyed && EditableValue(keyed[key]) && Transformed(line, ByKey(key), keyed).Some?
    ensures Gives(Transformed(line, ByKey(key), keyed).value, keyed[key])
  {
    hide Rewritten, Gives, EditableValue;
    RewriteGives(line, keyed[key]);
  }

  // ----- when the model is written at all

  ghost predicate HasKey(line: string, keyed: map<Keyed, string>) {
    KeyOf(line).Some? && KeyOf(line).value in keyed
  }

  /** A line without a key of the table that carries the name. */
  ghost predicate Named(line: string, p: string, keyed: map<Keyed, string>) {
    !HasKey(line, keyed) && WriterLine(line, p)
  }

  ghost predicate OnlyNamed(lines: seq<string>, p: string, keyed: map<Keyed, string>, at: nat) {
    && at < |lines| && Named(lines[at], p, keyed)
    && forall i :: 0 <= i < |lines| && i != at ==> !Named(lines[i], p, keyed)
  }

  ghost predicate OnlyKey(lines: seq<string>, key: Keyed, at: nat) {
    at < |lines| && KeyOf(lines[at]) == Some(key) && forall i :: 0 <= i < |lines| && i != at ==> KeyOf(lines[i]) != Some(key)
  }

  ghost predicate Within(line: string, word: string) {
    exists a, b :: line == a + word + b
  }

  lemma ContainsIs(line: string, word: string)
    ensures Contains(line, word) <==> Within(line, word)
  {
    if i: nat :| 0 <= i <= |line| && StartsAt(line, word, i) {
      assert line == line[..i] + word + line[i + |word|..];
    }
    if a, b :| line == a + word + b {
      assert StartsAt(line, word, |a|);
    }
  }

  lemma NamedIs(line: string, edits: seq<Edit>, keyed: map<Keyed, string>, e: Edit)
    requires Dictionary(edits) && e in edits
    ensures TargetOf(line, edits, keyed) == ByName(e) <==> Named(line, e.property, keyed)
    ensures TargetOf(line, edits, keyed).ByName? ==> TargetOf(line, edits, keyed).edit in edits
  {
    hide KeyOf, WriterLine, PropertyName, EditableValue, Distinct;
    EditForIs(line, edits, e);
    if EditFor(line, edits).Some? {
      EditForIn(line, edits);
    }
  }

  /** A line the writer would rewrite. */
  ghost predicate Touched(line: string, edits: seq<Edit>, keyed: map<Keyed, string>) {
    HasKey(line, keyed) || exists e :: e in edits && WriterLine(line, e.property)
  }

  lemma TouchedIs(line: string, edits: seq<Edit>, keyed: map<Keyed, string>)
    requires Dictionary(edits)
    ensures TargetOf(line, edits, keyed) != Untouched <==> Touched(line, edits, keyed)
  {
    hide KeyOf, WriterLine, PropertyName, EditableValue, Distinct;
    if EditFor(line, edits).Some? {
      EditForIn(line, edits);
      EditForIs(line, edits, EditFor(line, edits).value);
    }
    forall e | e in edits ensures EditFor(line, edits) == Some(e) <==> WriterLine(line, e.property) {
      EditForIs(line, edits, e);
    }
  }

  lemma {:induction false} TransformsIff(lines: seq<string>, edits: seq<Edit>, keyed: map<Keyed, string>)
    requires Dictionary(edits)
    ensures TransformAll(lines, edits, keyed).Some? <==>
            forall i :: 0 <= i < |lines| && Touched(lines[i], edits, keyed) ==> !Lacks(lines[i], '=')
  {
    hide Dictionary, Touched, Lacks, KeyOf, Rewritten, EditFor;
    if lines != [] {
      var last := |lines| - 1;
      TransformsIff(lines[..last], edits, keyed);
      TouchedIs(lines[last], edits, keyed);
      match TargetOf(lines[last], edits, keyed)
      case Untouched =>
      case ByKey(key) => RewrittenIs(lines[last], keyed[key]);
      case ByName(edit) => RewrittenIs(lines[last], edit.value);
    }
  }

  /** A text is written exactly when it mentions the track, no touched line lacks its equals sign, and every name and every key stands in one line alone. */
  lemma WrittenIff(text: string, edits: seq<Edit>, track: string, keyed: map<Keyed, string>)
    requires Dictionary(edits)
    ensures var lines := Plain(SplitKeep(text));
            PrepareModel(text, edits, track, keyed).Some? <==>
              && (exists i :: 0 <= i < |lines| && Within(lines[i], track))
              && (forall i :: 0 <= i < |lines| && Touched(lines[i], edits, keyed) ==> !Lacks(lines[i], '='))
              && (forall e :: e in edits ==> exists at: nat :: OnlyNamed(lines, e.property, keyed, at))
              && (forall key :: key in keyed ==> exists at: nat :: OnlyKey(lines, key, at))
  {
    hide SplitKeep, Plain, TransformAll, JoinLines, Contains, Within, Touched, Lacks, Dictionary, Targets, OnlyNamed, OnlyKey, Named;
    var lines := Plain(SplitKeep(text));
    TransformsIff(lines, edits, keyed);
    forall i | 0 <= i < |lines| ensures Contains(lines[i], track) <==> Within(lines[i], track) {
      ContainsIs(lines[i], track);
    }
    var targets := Targets(lines, edits, keyed);
    forall e | e in edits ensures multiset(targets)[ByName(e)] == 1 <==> exists at: nat :: OnlyNamed(lines, e.property, keyed, at) {
      NamedOnce(lines, edits, keyed, e);
    }
    forall key | key in keyed ensures multiset(targets)[ByKey(key)] == 1 <==> exists at: nat :: OnlyKey(lines, key, at) {
      KeyOnce(lines, edits, keyed, key);
    }
    EachIs(targets, edits, keyed);
  }

  lemma EachIs(targets: seq<Target>, edits: seq<Edit>, keyed: map<Keyed, string>)
    ensures EachOnce(targets, edits, keyed) <==>
            && (forall e :: e in edits ==> multiset(targets)[ByName(e)] == 1)
            && forall key :: key in keyed ==> multiset(targets)[ByKey(key)] == 1
  {
  }

  lemma NamedOnce(lines: seq<string>, edits: seq<Edit>, keyed: map<Keyed, string>, e: Edit)
    requires Dictionary(edits) && e in edits
    ensures multiset(Targets(lines, edits, keyed))[ByName(e)] == 1 <==> exists at: nat :: OnlyNamed(lines, e.property, keyed, at)
  {
    var targets := Targets(lines, edits, keyed);
    hide TargetOf, Named, Dictionary;
    OnceIn(targets, ByName(e));
    forall i | 0 <= i < |lines| ensures targets[i] == ByName(e) <==> Named(lines[i], e.property, keyed) {
      NamedIs(lines[i], edits, keyed, e);
    }
    forall at: nat ensures OnlyAt(targets, ByName(e), at) <==> OnlyNamed(lines, e.property, keyed, at) {
    }
  }

  lemma KeyOnce(lines: seq<string>, edits: seq<Edit>, keyed: map<Keyed, string>, key: Keyed)
    requires key in keyed
    ensures multiset(Targets(lines, edits, keyed))[ByKey(key)] == 1 <==> exists at: nat :: OnlyKey(lines, key, at)
  {
    var targets := Targets(lines, edits, keyed);
    hide TargetOf, KeyOf;
    OnceIn(targets, ByKey(key));
    forall i | 0 <= i < |lines| ensures targets[i] == ByKey(key) <==> KeyOf(lines[i]) == Some(key) {
      KeyTargets(lines[i], edits, keyed, key);
    }
    forall at: nat ensures OnlyAt(targets, ByKey(key), at) <==> OnlyKey(lines, key, at) {
    }
  }
}

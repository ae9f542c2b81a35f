/** The model writer and the separately written reader of the realtime arm, and their agreement. */
module RealtimeModel {
  import opened Wrappers
  import opened TextLines
  import opened ModelEditor
  import opened Readings
  import opened HistoricalLines

  /** What the writer does with a line. */
  datatype Target = Untouched | ByKey(key: Keyed) | ByName(edit: Edit)

  function Plain(lines: seq<string>): (r: seq<string>)
    ensures |r| == |lines| && forall i :: 0 <= i < |r| ==> r[i] == Body(lines[i])
  {
    seq(|lines|, i requires 0 <= i < |lines| => Body(lines[i]))
  }

  predicate EndsName(c: char) { c == ' ' || c == '\t' || c == '(' }

  predicate WriterLine(line: string, p: string) {
    var view := Lstrip(line);
    p <= view && |view| > |p| && EndsName(view[|p|])
  }

  /** The first edit, in order, whose name the line carries. */
  function EditFor(line: string, edits: seq<Edit>): Option<Edit> {
    if edits == [] then None
    else if WriterLine(line, edits[0].property) then Some(edits[0])
    else EditFor(line, edits[1..])
  }

  function Assigned(head: string, v: string): string { head + " " + v }

  function Commented(written: string, comment: string): string { written + " " + comment }

  /** One blank before the new value and one before the comment. */
  function Rewritten(line: string, v: string): Option<string> {
    match Find(line, '=', 0)
    case None => None
    case Some(equals) =>
      var written := Assigned(line[..equals + 1], v);
      match Find(line, '!', equals + 1)
      case None => Some(written)
      case Some(comment) => Some(Commented(written, Lstrip(line[comment..])))
  }

  /** Keyed values go first; outside the historical mode there are none. */
  function TargetOf(line: string, edits: seq<Edit>, keyed: map<Keyed, string>): Target {
    if KeyOf(line).Some? && KeyOf(line).value in keyed then ByKey(KeyOf(line).value)
    else
      match EditFor(line, edits)
      case None => Untouched
      case Some(edit) => ByName(edit)
  }

  function Transformed(line: string, target: Target, keyed: map<Keyed, string>): Option<string>
    requires target.ByKey? ==> target.key in keyed
  {
    match target
    case Untouched => Some(line)
    case ByKey(key) => Rewritten(line, keyed[key])
    case ByName(edit) => Rewritten(line, edit.value)
  }

  function Targets(lines: seq<string>, edits: seq<Edit>, keyed: map<Keyed, string>)
    : (r: seq<Target>)
    ensures |r| == |lines| && forall i :: 0 <= i < |r| ==> r[i] == TargetOf(lines[i], edits, keyed)
  {
    seq(|lines|, i requires 0 <= i < |lines| => TargetOf(lines[i], edits, keyed))
  }

  /** None from the first malformed line on. */
  function TransformAll(lines: seq<string>, edits: seq<Edit>, keyed: map<Keyed, string>)
    : (r: Option<seq<string>>)
    ensures r.Some? ==> |r.value| == |lines|
  {
    if lines == [] then Some([])
    else
      var last := |lines| - 1;
      match TransformAll(lines[..last], edits, keyed)
      case None => None
      case Some(before) =>
        match Transformed(lines[last], TargetOf(lines[last], edits, keyed), keyed)
        case None => None
        case Some(line) => Some(before + [line])
  }

  predicate Contains(line: string, word: string) {
    exists i :: 0 <= i <= |line| && StartsAt(line, word, i)
  }

  predicate StartsAt(line: string, word: string, i: nat) {
    i + |word| <= |line| && line[i..i + |word|] == word
  }

  predicate Mentions(lines: seq<string>, word: string) {
    exists i :: 0 <= i < |lines| && Contains(lines[i], word)
  }

  /** Every edit and every keyed value found its one line. */
  predicate EachOnce(targets: seq<Target>, edits: seq<Edit>, keyed: map<Keyed, string>) {
    && (forall i :: 0 <= i < |edits| ==> multiset(targets)[ByName(edits[i])] == 1)
    && forall key :: key in keyed ==> multiset(targets)[ByKey(key)] == 1
  }

  function JoinLines(lines: seq<string>): string
    requires lines != []
  {
    if |lines| == 1 then lines[0] + "\n" else lines[0] + "\n" + JoinLines(lines[1..])
  }

  /** The prepared text; None where the writer raises. */
  function PrepareModel(text: string, edits: seq<Edit>, track: string, keyed: map<Keyed, string>): Option<string> {
    var lines := Plain(SplitKeep(text));
    if !Mentions(lines, track) then None
    else
      match TransformAll(lines, edits, keyed)
      case None => None
      case Some(out) => if EachOnce(Targets(lines, edits, keyed), edits, keyed) then Some(JoinLines(out)) else None
  }

  // ----- the reader

  function ReaderLine(line: string, p: string): Reading {
    var view := Strip(line);
    if !(p <= view) || (|view| > |p| && !EndsName(view[|p|])) then Other
    else
      match Find(view, '=', 0)
      case None => Malformed
      case Some(equals) =>
        var comment := Find(view, '!', equals + 1);
        Holds(Strip(view[equals + 1..if comment.None? then |view| else comment.value]))
  }

  function ReaderSays(lines: seq<string>, p: string): (r: seq<Reading>)
    ensures |r| == |lines| && forall i :: 0 <= i < |r| ==> r[i] == ReaderLine(lines[i], p)
  {
    seq(|lines|, i requires 0 <= i < |lines| => ReaderLine(lines[i], p))
  }

  /** None where the reader rejects. */
  function ReadValue(text: string, p: string): Option<string> {
    Single(ReaderSays(Plain(SplitKeep(text)), p))
  }

  /** Keeps the last value and a count while it goes through the lines. */
  method ReadAssignment(text: string, p: string) returns (r: Option<string>)
    ensures r == ReadValue(text, p)
  {
    hide ReaderLine, SplitKeep, Collect, Body;
    var lines := Plain(SplitKeep(text));
    var result, count := "", 0;
    ghost var says := ReaderSays(lines, p);
    CollectNone(says);
    for i := 0 to |lines|
      invariant Collect(says[..i]).Some? && |Collect(says[..i]).value| == count
      invariant count > 0 ==> Collect(says[..i]).value[count - 1] == result
    {
      CollectNext(says, i);
      match ReaderLine(lines[i], p)
      case Other =>
      case Malformed =>
        StaysMalformed(says, i + 1);
        return None;
      case Holds(value) => result, count := value, count + 1;
    }
    assert says[..|lines|] == says;
    r := if count == 1 then Some(result) else None;
  }

  // ----- the writer as it runs

  method AssignmentProperty(line: string, edits: seq<Edit>) returns (r: Option<Edit>)
    ensures r == EditFor(line, edits)
  {
    hide WriterLine;
    for i := 0 to |edits|
      invariant EditFor(line, edits) == EditFor(line, edits[i..])
    {
      if WriterLine(line, edits[i].property) {
        return Some(edits[i]);
      }
      assert edits[i..][1..] == edits[i + 1..];
    }
    r := None;
  }

  method AnyMentions(lines: seq<string>, word: string) returns (found: bool)
    ensures found == Mentions(lines, word) && (found ==> lines != [])
  {
    hide Contains;
    for i := 0 to |lines|
      invariant forall j :: 0 <= j < i ==> !Contains(lines[j], word)
    {
      if Contains(lines[i], word) {
        return true;
      }
    }
    found := false;
  }

  method JoinWithNewlines(lines: seq<string>) returns (text: string)
    requires lines != []
    ensures text == JoinLines(lines)
  {
    text := lines[|lines| - 1] + "\n";
    var i := |lines| - 1;
    while i > 0
      invariant 0 <= i < |lines|
      invariant text == JoinLines(lines[i..])
    {
      i := i - 1;
      assert lines[i..][1..] == lines[i + 1..];
      text := lines[i] + "\n" + text;
    }
    assert lines[0..] == lines;
  }

  lemma {:induction false} StaysNone(lines: seq<string>, n: nat, edits: seq<Edit>,
                                     keyed: map<Keyed, string>)
    requires n <= |lines| && TransformAll(lines[..n], edits, keyed).None?
    ensures TransformAll(lines, edits, keyed).None?
    decreases |lines| - n
  {
    hide TargetOf, Transformed;
    if n < |lines| {
      assert lines[..n + 1][..n] == lines[..n];
      StaysNone(lines, n + 1, edits, keyed);
    } else {
      assert lines[..n] == lines;
    }
  }

  method TransformLine(line: string, edits: seq<Edit>, keyed: map<Keyed, string>)
    returns (target: Target, out: Option<string>)
    ensures target == TargetOf(line, edits, keyed)
    ensures target.ByName? ==> target.edit in edits
    ensures out == Transformed(line, target, keyed)
  {
    hide EditFor, Rewritten, KeyOf;
    target := Untouched;
    if KeyOf(line).Some? && KeyOf(line).value in keyed {
      target := ByKey(KeyOf(line).value);
    } else {
      var edit := AssignmentProperty(line, edits);
      if edit.Some? {
        EditForIn(line, edits);
        target := ByName(edit.value);
      }
    }
    out := Transformed(line, target, keyed);
  }

  /** The counts of each edit and each key among the lines seen. */
  ghost predicate Tally(counts: map<Edit, nat>, keyedCounts: map<Keyed, nat>, seen: seq<Target>, edits: seq<Edit>,
                  keyed: map<Keyed, string>) {
    && (forall e :: e in counts <==> e in edits) && keyedCounts.Keys == keyed.Keys
    && (forall e :: e in counts ==> counts[e] == multiset(seen)[ByName(e)])
    && forall k :: k in keyedCounts ==> keyedCounts[k] == multiset(seen)[ByKey(k)]
  }

  function Bump<K(==)>(counts: map<K, nat>, k: K): map<K, nat>
    requires k in counts
  {
    counts[k := counts[k] + 1]
  }

  lemma TallyNext(counts: map<Edit, nat>, keyedCounts: map<Keyed, nat>, seen: seq<Target>, target: Target,
                  edits: seq<Edit>, keyed: map<Keyed, string>)
    requires Tally(counts, keyedCounts, seen, edits, keyed)
    requires target.ByName? ==> target.edit in edits
    requires target.ByKey? ==> target.key in keyed
    ensures (target.ByName? ==> target.edit in counts) && (target.ByKey? ==> target.key in keyedCounts)
    ensures Tally(if target.ByName? then Bump(counts, target.edit) else counts,
                  if target.ByKey? then Bump(keyedCounts, target.key) else keyedCounts, seen + [target], edits, keyed)
  {
    assert multiset(seen + [target]) == multiset(seen) + multiset{target};
  }

  lemma TallyDecides(counts: map<Edit, nat>, keyedCounts: map<Keyed, nat>, targets: seq<Target>, edits: seq<Edit>,
                     keyed: map<Keyed, string>)
    requires Tally(counts, keyedCounts, targets, edits, keyed)
    ensures EachOnce(targets, edits, keyed)
       <==> (forall e :: e in counts ==> counts[e] == 1) && forall k :: k in keyedCounts ==> keyedCounts[k] == 1
  {
    assert forall i :: 0 <= i < |edits| ==> edits[i] in counts;
  }

  /** One pass: rewrites the lines, counting each name and each key. */
  method TransformAndCount(lines: seq<string>, edits: seq<Edit>, keyed: map<Keyed, string>)
    returns (out: Option<seq<string>>, counts: map<Edit, nat>, keyedCounts: map<Keyed, nat>)
    ensures out == TransformAll(lines, edits, keyed)
    ensures out.Some? ==> Tally(counts, keyedCounts, Targets(lines, edits, keyed), edits, keyed)
  {
    hide TargetOf, Transformed, Tally, Bump, Targets, TransformAll;
    counts := map e | e in edits :: 0;
    keyedCounts := map k | k in keyed :: 0;
    var transformed: seq<string> := [];
    TallyStarts(counts, keyedCounts, edits, keyed);
    NothingTransformed(lines, edits, keyed);
    for i := 0 to |lines|
      invariant TransformAll(lines[..i], edits, keyed) == Some(transformed)
      invariant Tally(counts, keyedCounts, Targets(lines[..i], edits, keyed), edits, keyed)
    {
      var target, line := TransformLine(lines[i], edits, keyed);
      LineTransformed(lines, i, edits, keyed);
      if line.None? {
        StaysNone(lines, i + 1, edits, keyed);
        return None, counts, keyedCounts;
      }
      transformed := transformed + [line.value];
      TallyNext(counts, keyedCounts, Targets(lines[..i], edits, keyed), target, edits, keyed);
      match target
      case Untouched =>
      case ByKey(key) => keyedCounts := Bump(keyedCounts, key);
      case ByName(edit) => counts := Bump(counts, edit);
    }
    assert lines[..|lines|] == lines;
    out := Some(transformed);
  }

  lemma NothingTransformed(lines: seq<string>, edits: seq<Edit>, keyed: map<Keyed, string>)
    ensures TransformAll(lines[..0], edits, keyed) == Some([]) && Targets(lines[..0], edits, keyed) == []
  {
  }

  lemma LineTransformed(lines: seq<string>, i: nat, edits: seq<Edit>, keyed: map<Keyed, string>)
    requires i < |lines| && TransformAll(lines[..i], edits, keyed).Some?
    ensures var target := TargetOf(lines[i], edits, keyed);
            && (target.ByKey? ==> target.key in keyed)
            && TransformAll(lines[..i + 1], edits, keyed)
               == match Transformed(lines[i], target, keyed) {
                    case None => None
                    case Some(line) => Some(TransformAll(lines[..i], edits, keyed).value + [line])
                  }
            && Targets(lines[..i + 1], edits, keyed) == Targets(lines[..i], edits, keyed) + [target]
  {
    hide EditFor, Transformed, KeyOf;
    assert lines[..i + 1][..i] == lines[..i];
  }

  /** The counts decide at the end whether the text is written. */
  method PrepareModelText(text: string, edits: seq<Edit>, track: string, keyed: map<Keyed, string>) returns (r: Option<string>)
    requires Distinct(edits)
    ensures r == PrepareModel(text, edits, track, keyed)
  {
    hide TransformAll, SplitKeep, Mentions, Distinct, JoinLines, Plain, Tally, EachOnce, Targets;
    var lines := Plain(SplitKeep(text));
    var mentioned := AnyMentions(lines, track);
    if !mentioned {
      return None;
    }
    var transformed, counts, keyedCounts := TransformAndCount(lines, edits, keyed);
    if transformed.None? {
      return None;
    }
    TallyDecides(counts, keyedCounts, Targets(lines, edits, keyed), edits, keyed);
    if (exists e :: e in counts && counts[e] != 1) || (exists k :: k in keyedCounts && keyedCounts[k] != 1) {
      return None;
    }
    var joined := JoinWithNewlines(transformed.value);
    r := Some(joined);
  }

  lemma TallyStarts(counts: map<Edit, nat>, keyedCounts: map<Keyed, nat>, edits: seq<Edit>, keyed: map<Keyed, string>)
    requires counts == (map e | e in edits :: 0) && keyedCounts == (map k | k in keyed :: 0)
    ensures Tally(counts, keyedCounts, [], edits, keyed)
  {
  }

  lemma EditForIn(line: string, edits: seq<Edit>)
    ensures EditFor(line, edits).Some? ==> EditFor(line, edits).value in edits && WriterLine(line, EditFor(line, edits).value.property)
  {
    hide WriterLine;
  }
}

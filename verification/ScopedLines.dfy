/** What a line says of an object, by the shape of the line alone. */
module ScopedLines {
  import opened Wrappers
  import opened TextLines
  import opened ModelEditor
  import opened Readings
  import opened ScopedAssignments

  // ----- whose line it is

  /** Blanks, the name, and then nothing, a blank or a parenthesis. */
  ghost predicate Named(line: string, p: string, blanks: string, rest: string) {
    && line == blanks + p + rest && AllBlank(blanks)
    && (rest == "" || IsBlank(rest[0]) || rest[0] == '(')
  }

  lemma AssignmentLineIs(line: string, p: string)
    requires PropertyName(p)
    ensures AssignmentLine(line, p) <==> exists blanks, rest :: Named(line, p, blanks, rest)
  {
    hide Lstrip, AllBlank, IsBlank, PropertyName;
    if AssignmentLine(line, p) {
      var view := Lstrip(line);
      LstripSplits(line);
      assert view == p + view[|p|..];
      assert Leading(line) + (p + view[|p|..]) == Leading(line) + p + view[|p|..];
      assert Named(line, p, Leading(line), view[|p|..]);
    }
    forall blanks, rest | Named(line, p, blanks, rest) ensures AssignmentLine(line, p) {
      NamedIsLine(line, p, blanks, rest);
    }
  }

  lemma NamedIsLine(line: string, p: string, blanks: string, rest: string)
    requires PropertyName(p) && Named(line, p, blanks, rest)
    ensures AssignmentLine(line, p)
  {
    hide Lstrip, AllBlank, IsBlank;
    var view := p + rest;
    assert line == blanks + view;
    LstripBlanks(blanks, view);
    assert view[0] == p[0];
    LstripStays(view);
    assert rest != "" ==> view[|p|] == rest[0];
  }

  // ----- words

  /** A nonempty slice without blanks, bounded by blanks or the ends. */
  ghost predicate WordAt(s: string, i: nat, j: nat) {
    && i < j <= |s| && (forall k :: i <= k < j ==> !IsBlank(s[k]))
    && (i == 0 || IsBlank(s[i - 1])) && (j == |s| || IsBlank(s[j]))
  }

  ghost predicate IsWord(s: string, word: string) {
    exists i: nat, j: nat :: WordAt(s, i, j) && s[i..j] == word
  }

  /** Words behind a blank, or not at the start, stand where they stood. */
  lemma WordShift(a: string, b: string, i: nat, j: nat)
    requires i < j <= |b| && (i == 0 && a != "" ==> IsBlank(a[|a| - 1]))
    ensures WordAt(b, i, j) <==> WordAt(a + b, |a| + i, |a| + j)
    ensures b[i..j] == (a + b)[|a| + i..|a| + j]
  {
    hide IsBlank;
    var s := a + b;
    assert i == 0 && a != "" ==> s[|a| - 1] == a[|a| - 1];
    assert forall k :: |a| <= k < |s| ==> s[k] == b[k - |a|];
    if WordAt(s, |a| + i, |a| + j) {
      forall k | i <= k < j ensures !IsBlank(b[k]) {
        assert s[|a| + k] == b[k];
      }
    }
  }

  lemma BlanksBefore(a: string, b: string, word: string)
    requires AllBlank(a)
    ensures IsWord(a + b, word) <==> IsWord(b, word)
  {
    hide IsBlank;
    var s := a + b;
    assert forall k :: 0 <= k < |a| ==> s[k] == a[k];
    if i: nat, j: nat :| WordAt(s, i, j) && s[i..j] == word {
      assert !IsBlank(s[i]);
      WordShift(a, b, i - |a|, j - |a|);
    }
    if i: nat, j: nat :| WordAt(b, i, j) && b[i..j] == word {
      WordShift(a, b, i, j);
    }
  }

  /** The first word, and the words after it. */
  lemma WordBefore(a: string, b: string, word: string)
    requires a != "" && (forall k :: 0 <= k < |a| ==> !IsBlank(a[k])) && (b == "" || IsBlank(b[0]))
    ensures IsWord(a + b, word) <==> word == a || IsWord(b, word)
  {
    hide IsBlank;
    var s := a + b;
    assert forall k :: 0 <= k < |a| ==> s[k] == a[k];
    assert b != "" ==> s[|a|] == b[0];
    assert WordAt(s, 0, |a|) && s[0..|a|] == a;
    if i: nat, j: nat :| WordAt(s, i, j) && s[i..j] == word {
      if i < |a| {
        assert i == 0 && j == |a|;
      } else {
        assert i > |a|;
        WordShift(a, b, i - |a|, j - |a|);
      }
    }
    if i: nat, j: nat :| WordAt(b, i, j) && b[i..j] == word {
      WordShift(a, b, i, j);
    }
  }

  lemma NoWords(word: string)
    ensures !IsWord("", word)
  {
  }

  lemma {:induction false} WordsAre(s: string, word: string)
    ensures word in Words(s) <==> IsWord(s, word)
    decreases |s|
  {
    var view := Lstrip(s);
    LstripSplits(s);
    hide Lstrip, Leading, IsWord, AllBlank, WordEnd;
    BlanksBefore(Leading(s), view, word);
    if view != "" {
      var end := WordEnd(view);
      assert view == view[..end] + view[end..];
      WordBefore(view[..end], view[end..], word);
      WordsAre(view[end..], word);
    } else {
      assert !IsWord("", word) by { NoWords(word); }
    }
  }

  // ----- the line

  /** The first parenthesis, its partner, and the rest of the line. */
  ghost predicate Opens(line: string, before: string, arguments: string, rest: string) {
    line == before + "(" + arguments + ")" + rest && Lacks(before, '(') && Lacks(arguments, ')')
  }

  /** What follows: up to the first equals sign, the field, and a comment or nothing. */
  ghost predicate Holding(rest: string, before: string, field: string, comment: string) {
    && rest == before + "=" + field + comment && Lacks(before, '=') && Lacks(field, '!')
    && (comment == "" || comment[0] == '!')
  }

  /** A line of the property with the object among the words of its parentheses. */
  ghost predicate SpeaksOf(line: string, q: string, owner: string, before: string, arguments: string, rest: string) {
    AssignmentLine(line, q) && Opens(line, before, arguments, rest) && IsWord(arguments, owner)
  }

  lemma OpensFinds(line: string, before: string, arguments: string, rest: string)
    requires Opens(line, before, arguments, rest)
    ensures var closing := |before| + 1 + |arguments|;
            && Find(line, '(', 0) == Some(|before|) && Find(line, ')', |before| + 1) == Some(closing)
            && line[|before| + 1..closing] == arguments && line[closing + 1..] == rest
  {
    FindIs(line, '(', 0, |before|);
    FindIs(line, ')', |before| + 1, |before| + 1 + |arguments|);
  }

  lemma FindsOpens(line: string)
    requires Find(line, '(', 0).Some? && Find(line, ')', Find(line, '(', 0).value + 1).Some?
    ensures var o := Find(line, '(', 0).value;
            var c := Find(line, ')', o + 1).value;
            Opens(line, line[..o], line[o + 1..c], line[c + 1..])
  {
    hide Find;
  }

  lemma FindShift(line: string, c: char, from: nat, k: nat)
    requires from + k <= |line|
    ensures Find(line, c, from + k) == Moved(Find(line[from..], c, k), from)
    decreases |line| - from - k
  {
    if from + k < |line| && line[from + k] != c {
      FindShift(line, c, from, k + 1);
    }
  }

  lemma HoldingFinds(rest: string, before: string, field: string, comment: string)
    requires Holding(rest, before, field, comment)
    ensures Find(rest, '=', 0) == Some(|before|)
    ensures Find(rest, '!', |before| + 1) == if comment == "" then None else Some(|before| + 1 + |field|)
    ensures rest[|before| + 1..|before| + 1 + |field|] == field
  {
    FindIs(rest, '=', 0, |before|);
    assert forall i :: |before| + 1 <= i < |before| + 1 + |field| ==> rest[i] == field[i - |before| - 1];
    if comment != "" {
      FindIs(rest, '!', |before| + 1, |before| + 1 + |field|);
    }
  }

  lemma FindsHolding(rest: string)
    requires Find(rest, '=', 0).Some?
    ensures var e := Find(rest, '=', 0).value;
            var comment := Find(rest, '!', e + 1);
            var end := if comment.Some? then comment.value else |rest|;
            Holding(rest, rest[..e], rest[e + 1..end], rest[end..])
  {
    var e := Find(rest, '=', 0).value;
    hide Find, Holding;
    match Find(rest, '!', e + 1)
    case None => HoldingAt(rest, e, |rest|);
    case Some(comment) => HoldingAt(rest, e, comment);
  }

  lemma HoldingAt(rest: string, e: nat, end: nat)
    requires e < end <= |rest| && rest[e] == '=' && (forall i :: 0 <= i < e ==> rest[i] != '=')
    requires (forall i :: e < i < end ==> rest[i] != '!') && (end == |rest| || rest[end] == '!')
    ensures Holding(rest, rest[..e], rest[e + 1..end], rest[end..])
  {
    FourParts(rest, e, end);
    var field := rest[e + 1..end];
    assert forall i :: 0 <= i < |field| ==> field[i] == rest[e + 1 + i];
  }

  lemma FourParts(s: string, e: nat, end: nat)
    requires e < end <= |s| && s[e] == '='
    ensures s == s[..e] + "=" + s[e + 1..end] + s[end..]
  {
    assert s[..end] == s[..e] + "=" + s[e + 1..end];
  }

  // ----- what the line says

  ghost predicate Names(line: string, q: string, owner: string) {
    exists before, arguments, rest :: SpeaksOf(line, q, owner, before, arguments, rest)
  }

  /** It names the object, and after the parentheses an equals sign and a field with this value. */
  ghost predicate Says(line: string, q: string, owner: string, v: string) {
    exists before, arguments, rest :: SpeaksOf(line, q, owner, before, arguments, rest) && Gives(rest, v)
  }

  ghost predicate Gives(rest: string, v: string) {
    exists before, field, comment :: Holding(rest, before, field, comment) && Strip(field) == v
  }

  lemma GivesIs(rest: string, v: string)
    ensures Gives(rest, v) <==>
            && Find(rest, '=', 0).Some?
            && var e := Find(rest, '=', 0).value;
               var comment := Find(rest, '!', e + 1);
               Strip(rest[e + 1..if comment.Some? then comment.value else |rest|]) == v
  {
    hide Find, Strip, Holding;
    if Find(rest, '=', 0).Some? {
      FindsHolding(rest);
    }
    forall before, field, comment | Holding(rest, before, field, comment)
      ensures var e := Find(rest, '=', 0);
              var c := Find(rest, '!', |before| + 1);
              && e == Some(|before|)
              && rest[|before| + 1..if c.Some? then c.value else |rest|] == field
    {
      HoldingFinds(rest, before, field, comment);
      HoldingLength(rest, before, field, comment);
    }
  }

  lemma HoldingLength(rest: string, before: string, field: string, comment: string)
    requires Holding(rest, before, field, comment)
    ensures |rest| == |before| + 1 + |field| + |comment|
  {
  }

  /** The pieces a line that speaks of the object is cut into are the ones the reader finds. */
  lemma ScopedLineOf(line: string, q: string, owner: string, before: string, arguments: string, rest: string)
    requires SpeaksOf(line, q, owner, before, arguments, rest)
    ensures ScopedLine(line, q, owner) == Malformed <==> Lacks(rest, '=')
    ensures forall v :: ScopedLine(line, q, owner) == Holds(v) <==> Gives(rest, v)
    ensures ScopedLine(line, q, owner) != Other
  {
    hide Find, Strip, AssignmentLine, Words, Gives, IsWord;
    OpensFinds(line, before, arguments, rest);
    WordsAre(arguments, owner);
    var closing := |before| + 1 + |arguments|;
    RestFinds(line, closing + 1);
    forall v ensures ScopedLine(line, q, owner) == Holds(v) <==> Gives(rest, v) {
      GivesIs(rest, v);
    }
    assert Find(rest, '=', 0).None? <==> Lacks(rest, '=');
  }

  lemma RestFinds(line: string, from: nat)
    requires from <= |line|
    ensures var rest := line[from..];
            && Find(line, '=', from) == Moved(Find(rest, '=', 0), from)
            && (Find(rest, '=', 0).Some? ==>
                  var e := Find(rest, '=', 0).value;
                  var (c, d) := (Find(line, '!', from + e + 1), Find(rest, '!', e + 1));
                  && c == Moved(d, from)
                  && line[from + e + 1..if c.Some? then c.value else |line|] == rest[e + 1..if d.Some? then d.value else |rest|])
  {
    hide Find;
    FindShift(line, '=', from, 0);
    if Find(line[from..], '=', 0).Some? {
      FindShift(line, '!', from, Find(line[from..], '=', 0).value + 1);
    }
  }

  function Moved(at: Option<nat>, n: nat): Option<nat> {
    match at
    case None => None
    case Some(k) => Some(k + n)
  }

  lemma OtherUnnamed(line: string, q: string, owner: string)
    requires ScopedLine(line, q, owner) != Other
    ensures Names(line, q, owner)
  {
    hide Find, Strip, AssignmentLine, Words, IsWord;
    FindsOpens(line);
    var o := Find(line, '(', 0).value;
    var c := Find(line, ')', o + 1).value;
    WordsAre(line[o + 1..c], owner);
    assert SpeaksOf(line, q, owner, line[..o], line[o + 1..c], line[c + 1..]);
  }

  /** The reading of a line, from its shape: other, malformed, or a value. */
  lemma ScopedLineIs(line: string, q: string, owner: string)
    ensures ScopedLine(line, q, owner) != Other <==> Names(line, q, owner)
    ensures forall v :: ScopedLine(line, q, owner) == Holds(v) <==> Says(line, q, owner, v)
    ensures ScopedLine(line, q, owner) == Malformed <==> Names(line, q, owner) && forall v :: !Says(line, q, owner, v)
  {
    hide ScopedLine, SpeaksOf, Gives;
    if ScopedLine(line, q, owner) != Other {
      OtherUnnamed(line, q, owner);
    }
    forall before, arguments, rest | SpeaksOf(line, q, owner, before, arguments, rest)
      ensures ScopedLine(line, q, owner) != Other
      ensures forall v :: ScopedLine(line, q, owner) == Holds(v) <==> Gives(rest, v)
    {
      ScopedLineOf(line, q, owner, before, arguments, rest);
    }
    if ScopedLine(line, q, owner).Holds? {
      assert Says(line, q, owner, ScopedLine(line, q, owner).value);
    }
  }

  ghost predicate OnlyLineNames(lines: seq<string>, q: string, owner: string, v: string, at: nat) {
    && at < |lines| && Says(Body(lines[at]), q, owner, v)
    && forall i :: 0 <= i < |lines| && i != at ==> !Names(Body(lines[i]), q, owner)
  }

  /** The scoped value of a text is v exactly when one line alone names the object for the property, and gives v. */
  lemma ScopedValueIs(text: string, q: string, owner: string, v: string)
    ensures ScopedValue(text, q, owner) == Some(v) <==> exists at: nat :: OnlyLineNames(SplitKeep(text), q, owner, v, at)
  {
    hide ScopedLine, Body, Says, Names;
    ScopedMeaning(text, q, owner, v);
    var lines := SplitKeep(text);
    forall line: string
      ensures ScopedLine(line, q, owner) == Other <==> !Names(line, q, owner)
      ensures ScopedLine(line, q, owner) == Holds(v) <==> Says(line, q, owner, v)
    {
      ScopedLineIs(line, q, owner);
    }
    forall at: nat ensures OnlyLineSays(lines, q, owner, v, at) <==> OnlyLineNames(lines, q, owner, v, at) {
    }
  }
}

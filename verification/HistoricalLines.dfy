/** The lines the historical excitation mode rewrites: a property of one object, some with an index. */
module HistoricalLines {
  import opened Wrappers
  import opened TextLines
  import opened ModelEditor

  datatype Keyed = Keyed(property: string, index: Option<nat>, owner: string)

  predicate NameChar(c: char) { 'a' <= c <= 'z' || c == '.' }

  predicate Digit(c: char) { '0' <= c <= '9' }

  predicate ObjectChar(c: char) { c == '_' || 'A' <= c <= 'Z' || 'a' <= c <= 'z' || Digit(c) }

  /** How many characters at the start are of a kind. */
  function RunLength(s: string, kind: char -> bool): (n: nat)
    ensures n <= |s| && (n < |s| ==> !kind(s[n]))
    ensures forall i :: 0 <= i < n ==> kind(s[i])
  {
    if s == "" || !kind(s[0]) then 0
    else
      var rest := RunLength(s[1..], kind);
      assert forall i :: 1 <= i < rest + 1 ==> s[i] == s[1..][i - 1];
      rest + 1
  }

  /** What follows a mark that only blanks precede. */
  function Past(s: string, mark: char): Option<string> {
    var view := Lstrip(s);
    if view != "" && view[0] == mark then Some(view[1..]) else None
  }

  function Number(digits: string): nat
    requires forall i :: 0 <= i < |digits| ==> Digit(digits[i])
  {
    if digits == "" then 0
    else
      var last := |digits| - 1;
      assert Digit(digits[last]);
      10 * Number(digits[..last]) + (digits[last] - '0') as nat
  }

  /** Between the parentheses: an index and a comma, or nothing, and what follows. */
  function IndexOf(arguments: string): (Option<nat>, string) {
    var n := RunLength(arguments, Digit);
    var after := Past(arguments[n..], ',');
    if n > 0 && after.Some? then (Some(Number(arguments[..n])), Lstrip(after.value)) else (None, arguments)
  }

  /** The key of a line: blanks, a name, and in parentheses an optional index and an object, then an equals sign. */
  function KeyOf(line: string): Option<Keyed> {
    var view := Lstrip(line);
    var n := RunLength(view, NameChar);
    if n == 0 || Past(view[n..], '(').None? then None
    else
      var (index, rest) := IndexOf(Lstrip(Past(view[n..], '(').value));
      if rest == "" || rest[0] != '$' then None
      else
        var k := RunLength(rest[1..], ObjectChar);
        var closing := Past(rest[k + 1..], ')');
        if k == 0 || closing.None? || Past(closing.value, '=').None? then None
        else Some(Keyed(view[..n], index, rest[..k + 1]))
  }

  /** A keyed line is a line of its property. */
  lemma KeyStartsLine(line: string)
    requires KeyOf(line).Some?
    ensures PropertyName(KeyOf(line).value.property) && AssignmentLine(line, KeyOf(line).value.property)
  {
    hide IndexOf, RunLength, Past, PropertyName, IsBlank, Lstrip;
    var view := Lstrip(line);
    var n := RunLength(view, NameChar);
    NameIsProperty(view[..n]);
    NameThenMark(view, n);
  }

  lemma NameThenMark(view: string, n: nat)
    requires n <= |view| && Past(view[n..], '(').Some?
    ensures view[..n] <= view && n < |view| && (IsBlank(view[n]) || view[n] == '(')
  {
    hide Past;
    MarkFollows(view[n..], '(');
  }

  lemma NameIsProperty(name: string)
    requires name != "" && forall i :: 0 <= i < |name| ==> NameChar(name[i])
    ensures PropertyName(name)
  {
  }

  lemma MarkFollows(s: string, mark: char)
    requires Past(s, mark).Some?
    ensures s != "" && (IsBlank(s[0]) || s[0] == mark)
  {
  }

  // ----- every written key is read back

  /** A keyed line, with any blanks between the pieces of its key and any value. */
  function Rendered(name: string, digits: Option<string>, owner: string, b: seq<string>, value: string): string
    requires |b| == 7
  {
    b[0] + (name + (b[1] + ("(" + (b[2] + (IndexText(digits, b[5], b[6]) + (owner + (b[3] + (")" + (b[4] + ("=" + value))))))))))
  }

  function IndexText(digits: Option<string>, before: string, after: string): string {
    if digits.None? then "" else digits.value + (before + ("," + after))
  }

  predicate AllOf(s: string, kind: char -> bool) { forall i :: 0 <= i < |s| ==> kind(s[i]) }

  lemma {:induction false} RunsTo(s: string, rest: string, kind: char -> bool)
    requires AllOf(s, kind) && (rest != "" ==> !kind(rest[0]))
    ensures RunLength(s + rest, kind) == |s|
  {
    if s == "" {
      assert s + rest == rest;
    } else {
      assert (s + rest)[1..] == s[1..] + rest;
      RunsTo(s[1..], rest, kind);
    }
  }

  lemma PastBlanks(b: string, mark: char, rest: string)
    requires AllBlank(b) && !IsBlank(mark)
    ensures Past(b + ([mark] + rest), mark) == Some(rest)
  {
    hide Lstrip;
    LstripBlanks(b, [mark] + rest);
    LstripStays([mark] + rest);
    assert ([mark] + rest)[1..] == rest;
  }

  lemma StartsOutside(b: string, mark: char, rest: string, kind: char -> bool)
    requires AllBlank(b) && !kind(mark) && !kind(' ') && !kind('\t') && !kind('\n') && !kind('\r')
    ensures b + ([mark] + rest) != "" && !kind((b + ([mark] + rest))[0])
  {
    assert (b + ([mark] + rest))[0] == if b == "" then mark else b[0];
  }

  ghost predicate IsKeyText(name: string, digits: Option<string>, owner: string, b: seq<string>) {
    && |b| == 7 && (forall i :: 0 <= i < 7 ==> AllBlank(b[i]))
    && name != "" && AllOf(name, NameChar)
    && (digits.Some? ==> digits.value != "" && AllOf(digits.value, Digit))
    && |owner| > 1 && owner[0] == '$' && AllOf(owner[1..], ObjectChar)
  }

  lemma CutAt(a: string, b: string)
    ensures (a + b)[..|a|] == a && (a + b)[|a|..] == b
  {
  }

  lemma IndexReads(digits: Option<string>, before: string, after: string, rest: string)
    requires digits.Some? ==> digits.value != "" && AllOf(digits.value, Digit)
    requires AllBlank(before) && AllBlank(after) && rest != "" && rest[0] == '$'
    ensures IndexOf(IndexText(digits, before, after) + rest)
         == (if digits.None? then None else Some(Number(digits.value)), rest)
  {
    hide Lstrip, Past, RunLength, AllBlank;
    match digits
    case None =>
      assert "" + rest == rest;
      RunsTo("", rest, Digit);
    case Some(d) =>
      assert [','] == ",";
      var more := before + ([','] + (after + rest));
      assert IndexText(digits, before, after) + rest == d + more;
      StartsOutside(before, ',', after + rest, Digit);
      RunsTo(d, more, Digit);
      CutAt(d, more);
      PastBlanks(before, ',', after + rest);
      LstripBlanks(after, rest);
      LstripStays(rest);
  }

  lemma ObjectReads(owner: string, b3: string, b4: string, value: string)
    requires |owner| > 1 && owner[0] == '$' && AllOf(owner[1..], ObjectChar) && AllBlank(b3) && AllBlank(b4)
    ensures var rest := owner + (b3 + (")" + (b4 + ("=" + value))));
            var k := RunLength(rest[1..], ObjectChar);
            && k == |owner| - 1 && Past(rest[k + 1..], ')') == Some(b4 + ("=" + value)) && Past(b4 + ("=" + value), '=').Some?
            && rest[..k + 1] == owner && rest[0] == '$'
  {
    hide Lstrip, Past, RunLength, AllBlank;
    var after := b3 + ([')'] + (b4 + ("=" + value)));
    assert [')'] == ")" && ['='] == "=";
    var rest := owner + after;
    assert rest[1..] == owner[1..] + after;
    StartsOutside(b3, ')', b4 + ("=" + value), ObjectChar);
    RunsTo(owner[1..], after, ObjectChar);
    CutAt(owner, after);
    PastBlanks(b3, ')', b4 + ("=" + value));
    PastBlanks(b4, '=', value);
  }

  /** Whatever its blanks, a written key is read as its name, the number of its digits and its object. */
  lemma RenderedReads(name: string, digits: Option<string>, owner: string, b: seq<string>, value: string)
    requires IsKeyText(name, digits, owner, b)
    ensures KeyOf(Rendered(name, digits, owner, b, value))
         == Some(Keyed(name, if digits.None? then None else Some(Number(digits.value)), owner))
  {
    hide Past, RunLength, AllBlank, IndexOf, IndexText;
    var rest := owner + (b[3] + (")" + (b[4] + ("=" + value))));
    var arguments := IndexText(digits, b[5], b[6]) + rest;
    var inner := b[2] + arguments;
    var after := b[1] + (['('] + inner);
    assert ['('] == "(";
    assert inner == b[2] + (IndexText(digits, b[5], b[6]) + rest);
    var view := name + after;
    assert Rendered(name, digits, owner, b, value) == b[0] + view;
    NameIsProperty(name);
    ViewStays(b[0], name, after);
    StartsOutside(b[1], '(', inner, NameChar);
    RunsTo(name, after, NameChar);
    CutAt(name, after);
    PastBlanks(b[1], '(', inner);
    ArgumentsStay(digits, b[2], b[5], b[6], rest);
    IndexReads(digits, b[5], b[6], rest);
    ObjectReads(owner, b[3], b[4], value);
    hide Lstrip, Rendered, Number;
  }

  lemma ViewStays(b: string, name: string, after: string)
    requires AllBlank(b) && name != "" && AllOf(name, NameChar)
    ensures Lstrip(b + (name + after)) == name + after
  {
    hide Lstrip;
    assert (name + after)[0] == name[0] && NameChar(name[0]);
    LstripBlanks(b, name + after);
    LstripStays(name + after);
  }

  lemma ArgumentsStay(digits: Option<string>, b: string, before: string, after: string, rest: string)
    requires AllBlank(b) && (digits.Some? ==> digits.value != "" && AllOf(digits.value, Digit)) && rest != "" && rest[0] == '$'
    ensures Lstrip(b + (IndexText(digits, before, after) + rest)) == IndexText(digits, before, after) + rest
  {
    hide Lstrip;
    var arguments := IndexText(digits, before, after) + rest;
    assert arguments[0] == if digits.None? then '$' else digits.value[0];
    LstripBlanks(b, arguments);
    LstripStays(arguments);
  }

  // ----- and nothing else is read as a key

  lemma PastIs(s: string, mark: char) returns (b: string)
    requires Past(s, mark).Some?
    ensures AllBlank(b) && s == b + ([mark] + Past(s, mark).value)
  {
    LstripSplits(s);
    hide Lstrip, AllBlank, Leading;
    b := Leading(s);
    assert Lstrip(s) == [mark] + Lstrip(s)[1..];
  }

  lemma BlanksFirst(s: string) returns (b: string)
    ensures AllBlank(b) && s == b + Lstrip(s)
  {
    LstripSplits(s);
    hide Lstrip, AllBlank;
    b := Leading(s);
  }

  lemma IndexIs(arguments: string) returns (digits: Option<string>, before: string, after: string)
    ensures AllBlank(before) && AllBlank(after) && (digits.Some? ==> digits.value != "" && AllOf(digits.value, Digit))
    ensures var (index, rest) := IndexOf(arguments);
            && arguments == IndexText(digits, before, after) + rest
            && index == if digits.None? then None else Some(Number(digits.value))
  {
    hide Lstrip, Past, AllBlank, IsBlank, Number;
    digits, before, after := None, "", "";
    assert AllBlank("") by { NoBlanks(); }
    var n := RunLength(arguments, Digit);
    if n > 0 && Past(arguments[n..], ',').Some? {
      digits := Some(arguments[..n]);
      before := PastIs(arguments[n..], ',');
      after := BlanksFirst(Past(arguments[n..], ',').value);
      assert arguments == arguments[..n] + arguments[n..];
      assert [','] == ",";
    }
  }

  lemma NoBlanks()
    ensures AllBlank("")
  {
  }

  lemma ObjectIs(rest: string, k: nat) returns (b3: string, b4: string, value: string)
    requires rest != "" && k == RunLength(rest[1..], ObjectChar)
    requires var closing := Past(rest[k + 1..], ')'); closing.Some? && Past(closing.value, '=').Some?
    ensures AllBlank(b3) && AllBlank(b4) && AllOf(rest[1..k + 1], ObjectChar)
    ensures rest == rest[..k + 1] + (b3 + (")" + (b4 + ("=" + value))))
  {
    ObjectRuns(rest, k);
    hide Past, AllBlank, ObjectChar, RunLength, AllOf;
    b3 := PastIs(rest[k + 1..], ')');
    var closing := Past(rest[k + 1..], ')').value;
    b4 := PastIs(closing, '=');
    value := Past(closing, '=').value;
    Whole(rest, k + 1);
    assert [')'] == ")" && ['='] == "=";
  }

  lemma Whole(s: string, n: nat)
    requires n <= |s|
    ensures s == s[..n] + s[n..]
  {
  }

  lemma ObjectRuns(rest: string, k: nat)
    requires rest != "" && k == RunLength(rest[1..], ObjectChar)
    ensures k + 1 <= |rest| && AllOf(rest[1..k + 1], ObjectChar)
  {
    hide ObjectChar;
    var kinds := rest[1..];
    assert rest[1..k + 1] == kinds[..k];
  }

  /** A line with a key is that key written out with some blanks: name, index as digits, object. */
  lemma KeyIsRendered(line: string)
    returns (name: string, digits: Option<string>, owner: string, b: seq<string>, value: string)
    requires KeyOf(line).Some?
    ensures IsKeyText(name, digits, owner, b) && line == Rendered(name, digits, owner, b, value)
    ensures KeyOf(line) == Some(Keyed(name, if digits.None? then None else Some(Number(digits.value)), owner))
  {
    hide Lstrip, Past, AllBlank, IndexOf, IndexText, AllOf, RunLength;
    var view := Lstrip(line);
    var n := RunLength(view, NameChar);
    var inside := Past(view[n..], '(').value;
    var arguments := Lstrip(inside);
    var rest := IndexOf(arguments).1;
    var k := RunLength(rest[1..], ObjectChar);
    var b0 := BlanksFirst(line);
    var b1 := PastIs(view[n..], '(');
    var b2 := BlanksFirst(inside);
    var b5, b6, b3, b4;
    digits, b5, b6 := IndexIs(arguments);
    b3, b4, value := ObjectIs(rest, k);
    name, owner, b := view[..n], rest[..k + 1], [b0, b1, b2, b3, b4, b5, b6];
    NameRuns(view);
    OwnerIs(rest, k);
    assert view == name + view[n..] && ['('] == "(";
  }

  lemma NameRuns(view: string)
    ensures AllOf(view[..RunLength(view, NameChar)], NameChar)
  {
  }

  lemma OwnerIs(rest: string, k: nat)
    requires k + 1 <= |rest| && rest[0] == '$' && k > 0
    ensures |rest[..k + 1]| > 1 && rest[..k + 1][0] == '$' && rest[..k + 1][1..] == rest[1..k + 1]
  {
  }

  // ----- numbers

  /** A number as its digits. */
  function Decimal(n: nat): (digits: string)
    ensures digits != "" && AllOf(digits, Digit)
  {
    var last := ['0' + (n % 10) as char];
    if n < 10 then last else Decimal(n / 10) + last
  }

  /** Digits are read as the number they write, leading zeros aside. */
  lemma {:induction false} NumberOfDecimal(n: nat, zeros: nat)
    ensures AllOf(Zeros(zeros) + Decimal(n), Digit) && Number(Zeros(zeros) + Decimal(n)) == n
  {
    var text := Zeros(zeros) + Decimal(n);
    if n < 10 {
      assert text[..|text| - 1] == Zeros(zeros);
      NumberOfZeros(zeros);
    } else {
      NumberOfDecimal(n / 10, zeros);
      assert text[..|text| - 1] == Zeros(zeros) + Decimal(n / 10);
    }
  }

  function Zeros(n: nat): (r: string)
    ensures AllOf(r, Digit)
  {
    if n == 0 then "" else Zeros(n - 1) + "0"
  }

  lemma {:induction false} NumberOfZeros(n: nat)
    ensures Number(Zeros(n)) == 0
  {
    if n > 0 {
      NumberOfZeros(n - 1);
      assert Zeros(n)[..|Zeros(n)| - 1] == Zeros(n - 1);
    }
  }
}

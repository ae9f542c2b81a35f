/** Lines, blanks and searches in text, as the model editors use them. */
module TextLines {
  import opened Wrappers

  predicate IsBlank(c: char) { c == ' ' || c == '\t' || c == '\n' || c == '\r' }

  predicate AllBlank(s: string) { forall i :: 0 <= i < |s| ==> IsBlank(s[i]) }

  predicate OneLine(s: string) { forall i :: 0 <= i < |s| ==> s[i] != '\n' }

  predicate Lacks(s: string, c: char) { forall i :: 0 <= i < |s| ==> s[i] != c }

  function Lstrip(s: string): (r: string)
    ensures |r| <= |s| && r == s[|s| - |r|..]
    ensures r != "" ==> !IsBlank(r[0])
    ensures AllBlank(s[..|s| - |r|])
  {
    if s != "" && IsBlank(s[0]) then
      var r := Lstrip(s[1..]);
      assert s[..|s| - |r|] == [s[0]] + s[1..][..|s| - 1 - |r|];
      r
    else s
  }

  function Rstrip(s: string): (r: string)
    ensures r <= s
    ensures r != "" ==> !IsBlank(r[|r| - 1])
    ensures AllBlank(s[|r|..])
  {
    if s != "" && IsBlank(s[|s| - 1]) then Rstrip(s[..|s| - 1]) else s
  }

  function Blanks(n: nat): (r: string)
    ensures |r| == n && forall i :: 0 <= i < n ==> r[i] == ' '
  {
    if n == 0 then "" else " " + Blanks(n - 1)
  }

  function Strip(s: string): string { Rstrip(Lstrip(s)) }

  /** The blanks before, and after, what strip leaves. */
  function Leading(s: string): string { s[..|s| - |Lstrip(s)|] }

  function Trailing(s: string): string { s[|Rstrip(s)|..] }

  /** Nothing to strip at either end. */
  predicate Trimmed(s: string) {
    s != "" ==> !IsBlank(s[0]) && !IsBlank(s[|s| - 1])
  }

  /** The first position of `c` at or after `from`. */
  function Find(s: string, c: char, from: nat): (r: Option<nat>)
    ensures r.Some? ==> from <= r.value < |s| && s[r.value] == c
    ensures r.Some? ==> forall i :: from <= i < r.value ==> s[i] != c
    ensures r.None? ==> forall i :: from <= i < |s| ==> s[i] != c
    decreases |s| - from
  {
    if |s| <= from then None
    else if s[from] == c then Some(from)
    else Find(s, c, from + 1)
  }

  lemma FindIs(s: string, c: char, from: nat, at: nat)
    requires from <= at < |s| && s[at] == c && forall i :: from <= i < at ==> s[i] != c
    ensures Find(s, c, from) == Some(at)
  {
  }

  lemma {:induction false} LstripPrefix(a: string, b: string)
    requires !AllBlank(a)
    ensures Lstrip(a + b) == Lstrip(a) + b
  {
    if IsBlank(a[0]) {
      assert (a + b)[1..] == a[1..] + b;
      LstripPrefix(a[1..], b);
    }
  }

  lemma {:induction false} LstripBlanks(a: string, b: string)
    requires AllBlank(a)
    ensures Lstrip(a + b) == Lstrip(b)
  {
    if a == "" {
      assert a + b == b;
    } else {
      assert (a + b)[1..] == a[1..] + b;
      LstripBlanks(a[1..], b);
    }
  }

  lemma {:induction false} RstripBlanks(a: string, b: string)
    requires AllBlank(b)
    ensures Rstrip(a + b) == Rstrip(a)
  {
    if b == "" {
      assert a + b == a;
    } else {
      assert (a + b)[..|a + b| - 1] == a + b[..|b| - 1];
      RstripBlanks(a, b[..|b| - 1]);
    }
  }

  lemma {:induction false} RstripSuffix(a: string, b: string)
    requires !AllBlank(b)
    ensures Rstrip(a + b) == a + Rstrip(b)
  {
    if IsBlank(b[|b| - 1]) {
      assert (a + b)[..|a + b| - 1] == a + b[..|b| - 1];
      RstripSuffix(a, b[..|b| - 1]);
    }
  }

  lemma {:induction false} LstripLeaves(s: string, i: nat)
    requires i < |s| && !IsBlank(s[i])
    ensures Lstrip(s) != ""
  {
    hide IsBlank;
    if IsBlank(s[0]) {
      LstripLeaves(s[1..], i - 1);
    }
  }

  lemma {:induction false} RstripLeaves(s: string, i: nat)
    requires i < |s| && !IsBlank(s[i])
    ensures Rstrip(s) != ""
  {
    hide IsBlank;
    if IsBlank(s[|s| - 1]) {
      RstripLeaves(s[..|s| - 1], i);
    }
  }

  lemma NotAllBlank(s: string)
    requires !AllBlank(s)
    ensures Lstrip(s) != "" && Rstrip(s) != ""
  {
    hide Lstrip, Rstrip, IsBlank;
    var i :| 0 <= i < |s| && !IsBlank(s[i]);
    LstripLeaves(s, i);
    RstripLeaves(s, i);
  }

  lemma LstripStays(s: string)
    requires s != "" ==> !IsBlank(s[0])
    ensures Lstrip(s) == s
  {
  }

  lemma RstripStays(s: string)
    requires s != "" ==> !IsBlank(s[|s| - 1])
    ensures Rstrip(s) == s
  {
  }

  /** A trimmed value between blanks is what strip finds, and the blanks are what it drops. */
  lemma StripBetween(a: string, v: string, b: string)
    requires AllBlank(a) && AllBlank(b) && Trimmed(v) && v != ""
    ensures Strip(a + v + b) == v && Leading(a + v + b) == a && Trailing(a + v + b) == b
  {
    hide Lstrip, Rstrip, AllBlank, IsBlank;
    var whole := a + v + b;
    assert whole == a + (v + b) && whole == (a + v) + b;
    LstripBlanks(a, v + b);
    assert (v + b)[0] == v[0];
    LstripStays(v + b);
    RstripBlanks(v, b);
    RstripStays(v);
    RstripBlanks(a + v, b);
    assert (a + v)[|a + v| - 1] == v[|v| - 1];
    RstripStays(a + v);
  }

  lemma BlankFieldStrips(f: string)
    requires AllBlank(f)
    ensures Strip(f) == "" && Leading(f) == f && Trailing(f) == f
  {
    LstripBlanks(f, "");
    RstripBlanks("", f);
    assert f + "" == f && "" + f == f;
  }

  /** A field is its leading blanks, its stripped value and its trailing blanks, unless all is blank. */
  lemma FieldParts(f: string)
    requires Strip(f) != ""
    ensures f == Leading(f) + Strip(f) + Trailing(f)
    ensures AllBlank(Leading(f)) && AllBlank(Trailing(f)) && Trimmed(Strip(f))
  {
    LstripSplits(f);
    RstripSplits(Lstrip(f));
    Refit(f, Leading(f), Lstrip(f), Strip(f), Trailing(Lstrip(f)));
  }

  lemma LstripSplits(f: string)
    ensures f == Leading(f) + Lstrip(f) && AllBlank(Leading(f)) && (Lstrip(f) != "" ==> !IsBlank(Lstrip(f)[0]))
  {
    hide AllBlank, Lstrip, IsBlank;
  }

  lemma RstripSplits(g: string)
    ensures g == Rstrip(g) + Trailing(g) && AllBlank(Trailing(g))
    ensures Rstrip(g) != "" ==> !IsBlank(Rstrip(g)[|Rstrip(g)| - 1])
  {
    hide AllBlank, Rstrip, IsBlank;
  }

  lemma Refit(f: string, a: string, g: string, v: string, t: string)
    requires f == a + g && g == v + t && AllBlank(a) && AllBlank(t) && v != ""
    requires !IsBlank(g[0]) && !IsBlank(v[|v| - 1])
    ensures f == a + v + t && Trimmed(v) && Leading(f) == a && Strip(f) == v && Trailing(f) == t
  {
    hide AllBlank, IsBlank;
    assert v[0] == g[0];
    assert a + (v + t) == a + v + t;
    StripBetween(a, v, t);
  }

  lemma StrippedIsNotBlank(f: string)
    ensures Strip(f) == "" <==> AllBlank(f)
  {
    hide Lstrip, Rstrip, IsBlank;
    if AllBlank(f) {
      BlankFieldStrips(f);
    } else {
      NotAllBlank(f);
      LstripSplits(f);
      var view := Lstrip(f);
      assert !IsBlank(view[0]);
      NotAllBlank(view);
    }
  }

  // ----- lines

  /** Lines with their terminators: a newline ends a line and is its last character. */
  function SplitKeep(text: string): (r: seq<string>)
    ensures WellFormed(r)
    ensures Join(r) == text
  {
    if text == "" then []
    else
      var end := Find(text, '\n', 0);
      if end.None? then
        assert Join([text]) == text by { assert [text][1..] == []; }
        [text]
      else
        var rest := SplitKeep(text[end.value + 1..]);
        var first := text[..end.value + 1];
        assert ([first] + rest)[1..] == rest;
        assert text == first + text[end.value + 1..];
        [first] + rest
  }

  function Join(lines: seq<string>): string {
    if lines == [] then "" else lines[0] + Join(lines[1..])
  }

  predicate IsLine(line: string) {
    line != "" && forall i :: 0 <= i < |line| - 1 ==> line[i] != '\n'
  }

  predicate Terminated(line: string) {
    line != "" && line[|line| - 1] == '\n'
  }

  /** What splitting gives: lines, all but the last terminated. */
  predicate WellFormed(lines: seq<string>) {
    && (forall i :: 0 <= i < |lines| ==> IsLine(lines[i]))
    && forall i :: 0 <= i < |lines| - 1 ==> Terminated(lines[i])
  }

  lemma {:induction false} SplitJoin(lines: seq<string>)
    requires WellFormed(lines)
    ensures SplitKeep(Join(lines)) == lines
  {
    if lines != [] {
      var first, rest := lines[0], lines[1..];
      assert WellFormed(rest);
      SplitJoin(rest);
      assert lines == [first] + rest;
      hide SplitKeep, Join;
      JoinFirst(lines);
      if Terminated(first) {
        SplitFirst(first, Join(rest));
      } else {
        assert rest == [];
        assert Join(rest) == "" by { JoinNothing(); }
        assert first + "" == first;
        SplitLast(first);
        SplitNothing();
      }
    }
  }

  lemma JoinNothing()
    ensures Join([]) == ""
  {
  }

  lemma SplitNothing()
    ensures SplitKeep("") == []
  {
  }

  lemma JoinFirst(lines: seq<string>)
    requires lines != []
    ensures Join(lines) == lines[0] + Join(lines[1..])
  {
  }

  lemma SplitFirst(first: string, rest: string)
    requires IsLine(first) && Terminated(first)
    ensures SplitKeep(first + rest) == [first] + SplitKeep(rest)
  {
    var text := first + rest;
    FindIs(text, '\n', 0, |first| - 1);
    hide Find, Join, WellFormed;
    assert text[..|first|] == first && text[|first|..] == rest;
  }

  lemma SplitLast(line: string)
    requires IsLine(line) && !Terminated(line)
    ensures SplitKeep(line) == [line]
  {
    hide Find, Join, WellFormed;
    assert forall i :: 0 <= i < |line| ==> line[i] != '\n';
  }

  function Body(line: string): string {
    if Terminated(line) then line[..|line| - 1] else line
  }

  function Newline(line: string): string {
    if Terminated(line) then "\n" else ""
  }
}

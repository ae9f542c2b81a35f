/** The column-preserving comment scanner against a classifier of single positions. */
module CommentScanner {
  import opened Wrappers
  import opened TextLines

  /** What a position is, known from the characters before it. */
  datatype Mode =
    | Code | LineComment | OpenTail | Block | CloseTail
    | InString | StringEscaped | InCharacter | CharacterEscaped

  function CharAt(line: string, i: nat): Option<char> {
    if i < |line| then Some(line[i]) else None
  }

  /** The mode after a character, given the one that follows it. */
  function Next(mode: Mode, c: char, next: Option<char>): Mode {
    match mode
    case Code =>
      if c == '/' && next == Some('/') then LineComment
      else if c == '/' && next == Some('*') then OpenTail
      else if c == '"' then InString
      else if c == '\'' then InCharacter
      else Code
    case LineComment => LineComment
    case OpenTail => Block
    case Block => if c == '*' && next == Some('/') then CloseTail else Block
    case CloseTail => Code
    case InString => if c == '\\' then StringEscaped else if c == '"' then Code else InString
    case StringEscaped => InString
    case InCharacter => if c == '\\' then CharacterEscaped else if c == '\'' then Code else InCharacter
    case CharacterEscaped => InCharacter
  }

  /** The mode of position `i`, or after the line when i is its length. */
  function ModeAt(line: string, inBlock: bool, i: nat): Mode
    requires i <= |line|
  {
    if i == 0 then (if inBlock then Block else Code)
    else Next(ModeAt(line, inBlock, i - 1), line[i - 1], CharAt(line, i))
  }

  predicate IsComment(mode: Mode) {
    mode.LineComment? || mode.OpenTail? || mode.Block? || mode.CloseTail?
  }

  predicate IsLiteral(mode: Mode) {
    mode.InString? || mode.StringEscaped? || mode.InCharacter? || mode.CharacterEscaped?
  }

  predicate IsOpener(c: char, next: Option<char>) {
    c == '/' && (next == Some('/') || next == Some('*'))
  }

  /** Whether position `i` is blanked: comments always, literal contents unless preserved. */
  predicate Blanked(line: string, inBlock: bool, preserve: bool, i: nat)
    requires i < |line|
  {
    BlankedIn(ModeAt(line, inBlock, i), line[i], CharAt(line, i + 1), preserve)
  }

  predicate BlankedIn(mode: Mode, c: char, next: Option<char>, preserve: bool) {
    IsComment(mode) || (mode.Code? && IsOpener(c, next)) || (IsLiteral(mode) && !preserve)
  }

  function Shown(line: string, inBlock: bool, preserve: bool, i: nat): char
    requires i < |line|
  {
    if Blanked(line, inBlock, preserve, i) then ' ' else line[i]
  }

  function Scanned(line: string, inBlock: bool, preserve: bool): (r: string)
    ensures |r| == |line|
  {
    seq(|line|, i requires 0 <= i < |line| => Shown(line, inBlock, preserve, i))
  }

  /** Whether a block comment is open before line `k`. */
  function BlockBefore(lines: seq<string>, k: nat): bool
    requires k <= |lines|
  {
    k != 0 && ModeAt(lines[k - 1], BlockBefore(lines, k - 1), |lines[k - 1]|).Block?
  }

  function ScannedText(lines: seq<string>, preserve: bool): (r: seq<string>)
    ensures |r| == |lines|
  {
    seq(|lines|, k requires 0 <= k < |lines| => Scanned(lines[k], BlockBefore(lines, k), preserve))
  }

  // ----- the scanner

  lemma {:induction false} LineCommentStays(line: string, inBlock: bool, i: nat, j: nat)
    requires i <= j <= |line| && ModeAt(line, inBlock, i).LineComment?
    ensures ModeAt(line, inBlock, j).LineComment?
  {
    if i < j {
      LineCommentStays(line, inBlock, i, j - 1);
    }
  }

  function StateMode(inBlock: bool, inString: bool, inCharacter: bool): Mode {
    if inBlock then Block else if inString then InString else if inCharacter then InCharacter else Code
  }

  lemma StartMode(line: string, inBlock: bool)
    ensures ModeAt(line, inBlock, 0) == if inBlock then Block else Code
  {
  }

  lemma PositionStep(line: string, inBlock: bool, preserve: bool, i: nat)
    requires i < |line|
    ensures var mode, next := ModeAt(line, inBlock, i), CharAt(line, i + 1);
            && ModeAt(line, inBlock, i + 1) == Next(mode, line[i], next)
            && Shown(line, inBlock, preserve, i) == if BlankedIn(mode, line[i], next, preserve) then ' ' else line[i]
  {
  }

  /** Two characters at `i`, or the last one. */
  function Two(line: string, i: nat): string
    requires i < |line|
  {
    line[i..if i + 2 <= |line| then i + 2 else |line|]
  }

  lemma TwoIs(line: string, i: nat, a: char, b: char)
    requires i < |line|
    ensures Two(line, i) == [a, b] <==> line[i] == a && CharAt(line, i + 1) == Some(b)
  {
  }

  /** Inside a block comment: its end takes two characters, anything else one. */
  lemma BlockStep(line: string, inBlock: bool, preserve: bool, i: nat)
    requires i < |line| && ModeAt(line, inBlock, i).Block?
    ensures Shown(line, inBlock, preserve, i) == ' '
    ensures if Two(line, i) == "*/" then
              i + 2 <= |line| && ModeAt(line, inBlock, i + 2).Code? && Shown(line, inBlock, preserve, i + 1) == ' '
            else ModeAt(line, inBlock, i + 1).Block?
  {
    hide ModeAt, Shown, Two;
    TwoIs(line, i, '*', '/');
    PositionStep(line, inBlock, preserve, i);
    if i + 1 < |line| {
      PositionStep(line, inBlock, preserve, i + 1);
    }
  }

  /** Inside a literal: an escape takes two characters, or runs past the end; its own quote ends it. */
  lemma LiteralStep(line: string, inBlock: bool, preserve: bool, i: nat)
    requires i < |line| && (ModeAt(line, inBlock, i).InString? || ModeAt(line, inBlock, i).InCharacter?)
    ensures var mode := ModeAt(line, inBlock, i);
            && Shown(line, inBlock, preserve, i) == (if preserve then line[i] else ' ')
            && if line[i] == '\\' then
                 if i + 1 < |line| then
                   && Shown(line, inBlock, preserve, i + 1) == (if preserve then line[i + 1] else ' ')
                   && ModeAt(line, inBlock, i + 2) == mode
                 else IsLiteral(ModeAt(line, inBlock, |line|))
               else ModeAt(line, inBlock, i + 1) == if line[i] == (if mode.InString? then '"' else '\'') then Code else mode
  {
    hide ModeAt, Shown;
    PositionStep(line, inBlock, preserve, i);
    if i + 1 < |line| {
      PositionStep(line, inBlock, preserve, i + 1);
    }
  }

  /** In code: a comment opener takes two characters, a quote opens a literal. */
  lemma CodeStep(line: string, inBlock: bool, preserve: bool, i: nat)
    requires i < |line| && ModeAt(line, inBlock, i).Code?
    ensures Two(line, i) == "//" <==> line[i] == '/' && i + 1 < |line| && line[i + 1] == '/'
    ensures Two(line, i) == "/*" ==>
              && i + 2 <= |line| && ModeAt(line, inBlock, i + 2).Block?
              && Shown(line, inBlock, preserve, i) == ' ' && Shown(line, inBlock, preserve, i + 1) == ' '
    ensures Two(line, i) != "//" && Two(line, i) != "/*" ==>
              && Shown(line, inBlock, preserve, i) == line[i]
              && ModeAt(line, inBlock, i + 1) == if line[i] == '"' then InString else if line[i] == '\'' then InCharacter else Code
  {
    hide ModeAt, Shown, Two;
    TwoIs(line, i, '/', '/');
    TwoIs(line, i, '/', '*');
    PositionStep(line, inBlock, preserve, i);
    if i + 1 < |line| {
      PositionStep(line, inBlock, preserve, i + 1);
    }
  }

  /** Scans one line, one or two characters at a time. */
  method ScanLine(line: string, openBlock: bool, preserve: bool) returns (kept: string, inBlock: bool)
    ensures kept == Scanned(line, openBlock, preserve)
    ensures inBlock == ModeAt(line, openBlock, |line|).Block?
  {
    hide ModeAt, Shown, Two;
    kept, inBlock := "", openBlock;
    StartMode(line, openBlock);
    var index, inString, inCharacter := 0, false, false;
    while index < |line|
      invariant 0 <= index <= |line| + 1 && !(inString && inCharacter) && !(inBlock && (inString || inCharacter))
      invariant |kept| == if index <= |line| then index else |line|
      invariant forall p :: 0 <= p < |kept| ==> kept[p] == Shown(line, openBlock, preserve, p)
      invariant if index <= |line| then ModeAt(line, openBlock, index) == StateMode(inBlock, inString, inCharacter)
                else IsLiteral(ModeAt(line, openBlock, |line|)) && !inBlock
    {
      var two := Two(line, index);
      if inBlock {
        BlockStep(line, openBlock, preserve, index);
        if two == "*/" {
          inBlock := false;
          kept, index := kept + "  ", index + 2;
        } else {
          kept, index := kept + " ", index + 1;
        }
        continue;
      }
      if inString || inCharacter {
        LiteralStep(line, openBlock, preserve, index);
        kept := kept + [if preserve then line[index] else ' '];
        if line[index] == '\\' {
          if index + 1 < |line| {
            kept := kept + [if preserve then line[index + 1] else ' '];
          }
          index := index + 2;
          continue;
        }
        if inString && line[index] == '"' {
          inString := false;
        } else if inCharacter && line[index] == '\'' {
          inCharacter := false;
        }
        index := index + 1;
        continue;
      }
      CodeStep(line, openBlock, preserve, index);
      if two == "//" {
        RestIsComment(line, openBlock, preserve, index);
        kept := kept + Blanks(|line| - index);
        index := |line|;
        break;
      }
      if two == "/*" {
        inBlock := true;
        kept, index := kept + "  ", index + 2;
        continue;
      }
      if line[index] == '"' {
        inString := true;
      } else if line[index] == '\'' {
        inCharacter := true;
      }
      kept := kept + [line[index]];
      index := index + 1;
    }
  }

  lemma RestIsComment(line: string, inBlock: bool, preserve: bool, i: nat)
    requires i + 1 < |line| && ModeAt(line, inBlock, i).Code? && line[i] == '/' && line[i + 1] == '/'
    ensures Scanned(line, inBlock, preserve)[i..] == Blanks(|line| - i)
    ensures ModeAt(line, inBlock, |line|).LineComment?
  {
    forall j | i <= j < |line| ensures Blanked(line, inBlock, preserve, j) {
      if i < j {
        LineCommentStays(line, inBlock, i + 1, j);
      }
    }
    LineCommentStays(line, inBlock, i + 1, |line|);
  }

  /** Blanks comments, and literal contents on request, keeping every column. */
  method SourceLinesWithoutComments(lines: seq<string>, preserve: bool) returns (out: seq<string>)
    ensures out == ScannedText(lines, preserve)
  {
    out := [];
    var inBlock := false;
    for k := 0 to |lines|
      invariant inBlock == BlockBefore(lines, k)
      invariant out == ScannedText(lines, preserve)[..k]
    {
      var kept;
      kept, inBlock := ScanLine(lines[k], inBlock, preserve);
      out := out + [kept];
    }
  }

  // ----- scanning again

  /** How a mode appears once comments are blank. */
  function Calm(mode: Mode): Mode {
    if IsComment(mode) then Code else mode
  }

  /** With literals preserved, every position keeps its mode except that comments read as code. */
  lemma {:induction false} RescanModes(line: string, inBlock: bool, i: nat)
    requires i <= |line|
    ensures ModeAt(Scanned(line, inBlock, true), false, i) == Calm(ModeAt(line, inBlock, i))
  {
    if i != 0 {
      RescanModes(line, inBlock, i - 1);
    }
  }

  lemma RescanLine(line: string, inBlock: bool)
    ensures var out := Scanned(line, inBlock, true);
            Scanned(out, false, true) == out && !ModeAt(out, false, |out|).Block?
  {
    var out := Scanned(line, inBlock, true);
    forall i | 0 <= i < |out| ensures Scanned(out, false, true)[i] == out[i] {
      RescanModes(line, inBlock, i);
    }
    RescanModes(line, inBlock, |line|);
  }

  lemma {:induction false} NoBlocks(lines: seq<string>, k: nat)
    requires k <= |lines|
    requires forall j :: 0 <= j < |lines| ==> !ModeAt(lines[j], false, |lines[j]|).Block?
    ensures !BlockBefore(lines, k)
  {
    if k != 0 {
      NoBlocks(lines, k - 1);
    }
  }

  /** With literals preserved the scan is idempotent: blanking never makes a comment opener. */
  lemma RescanText(lines: seq<string>)
    ensures ScannedText(ScannedText(lines, true), true) == ScannedText(lines, true)
  {
    var out := ScannedText(lines, true);
    forall j | 0 <= j < |out|
      ensures !ModeAt(out[j], false, |out[j]|).Block? && Scanned(out[j], false, true) == out[j]
    {
      RescanLine(lines[j], BlockBefore(lines, j));
    }
    forall k | 0 <= k < |out| ensures ScannedText(out, true)[k] == out[k] {
      NoBlocks(out, k);
    }
  }

  // ----- literal contents blanked: the closing quotes go, so a second scan may blank more

  predicate IsQuote(c: char) { c == '"' || c == '\'' }

  /** Everything after the first quote is blank. */
  ghost predicate BlankAfterQuote(line: string) {
    forall i, j :: 0 <= i < j < |line| && IsQuote(line[i]) ==> line[j] == ' '
  }

  ghost predicate NoOpeners(line: string) {
    forall i :: 0 <= i < |line| ==> !IsOpener(line[i], CharAt(line, i + 1))
  }

  lemma BlankedHasNoOpeners(line: string, inBlock: bool)
    ensures NoOpeners(Scanned(line, inBlock, false))
  {
    var out := Scanned(line, inBlock, false);
    forall i | 0 <= i < |out| ensures !IsOpener(out[i], CharAt(out, i + 1)) {
      if out[i] == '/' {
        assert ModeAt(line, inBlock, i).Code? && line[i] == '/';
      }
    }
  }

  /** Without openers a line never leaves code and literals. */
  lemma {:induction false} NoComments(line: string, i: nat)
    requires NoOpeners(line) && i <= |line|
    ensures !IsComment(ModeAt(line, false, i))
  {
    if i != 0 {
      NoComments(line, i - 1);
    }
  }

  lemma {:induction false} CodeBeforeQuote(line: string, i: nat)
    requires NoOpeners(line) && i <= |line| && forall p :: 0 <= p < i ==> !IsQuote(line[p])
    ensures ModeAt(line, false, i).Code?
  {
    if i != 0 {
      CodeBeforeQuote(line, i - 1);
    }
  }

  lemma {:induction false} LiteralWhileBlank(line: string, p: nat, i: nat)
    requires NoOpeners(line) && p < i <= |line| && IsQuote(line[p]) && ModeAt(line, false, p).Code?
    requires forall q :: p < q < i ==> line[q] == ' '
    ensures ModeAt(line, false, i).InString? || ModeAt(line, false, i).InCharacter?
  {
    if p + 1 < i {
      LiteralWhileBlank(line, p, i - 1);
    }
  }

  lemma {:induction false} FirstQuote(line: string, i: nat) returns (p: nat)
    requires i < |line| && IsQuote(line[i])
    ensures p <= i && IsQuote(line[p]) && forall q :: 0 <= q < p ==> !IsQuote(line[q])
  {
    if q :| 0 <= q < i && IsQuote(line[q]) {
      p := FirstQuote(line, q);
    } else {
      p := i;
    }
  }

  /** Up to the first quote all is code; from there on, while all is blank, all is literal. */
  lemma ModesByQuote(line: string, i: nat)
    requires NoOpeners(line) && i <= |line|
    requires forall p, q :: 0 <= p < q < i && IsQuote(line[p]) ==> line[q] == ' '
    ensures if exists p :: 0 <= p < i && IsQuote(line[p]) then IsLiteral(ModeAt(line, false, i))
            else ModeAt(line, false, i).Code?
  {
    hide ModeAt;
    if p :| 0 <= p < i && IsQuote(line[p]) {
      var first := FirstQuote(line, p);
      CodeBeforeQuote(line, first);
      LiteralWhileBlank(line, first, i);
    } else {
      CodeBeforeQuote(line, i);
    }
  }

  /** A line without openers survives a literal-blanking scan iff all is blank after its first quote. */
  lemma RescanBlankedLine(line: string)
    requires NoOpeners(line)
    ensures Scanned(line, false, false) == line <==> BlankAfterQuote(line)
  {
    var out := Scanned(line, false, false);
    if BlankAfterQuote(line) {
      forall i | 0 <= i < |line| ensures out[i] == line[i] {
        ModesByQuote(line, i);
      }
    } else {
      var i, j :| 0 <= i < j < |line| && IsQuote(line[i]) && line[j] != ' ';
      var k := FirstBreak(line, i, j);
      ModesByQuote(line, k);
      assert out[k] == ' ' && line[k] != ' ';
    }
  }

  /** The first position that is not blank after a quote. */
  lemma {:induction false} FirstBreak(line: string, i: nat, j: nat) returns (k: nat)
    requires i < j < |line| && IsQuote(line[i]) && line[j] != ' '
    ensures k < |line| && line[k] != ' ' && exists p :: 0 <= p < k && IsQuote(line[p])
    ensures forall p, q :: 0 <= p < q < k && IsQuote(line[p]) ==> line[q] == ' '
    decreases j
  {
    if p, q :| 0 <= p < q < j && IsQuote(line[p]) && line[q] != ' ' {
      k := FirstBreak(line, p, q);
    } else {
      k := j;
    }
  }

  /** Once a literal opens in code, only blanks, comments and literal contents follow: no code. */
  ghost predicate NoCodeAfterLiteral(line: string, inBlock: bool) {
    forall i, j :: 0 <= i < j < |line| && ModeAt(line, inBlock, i).Code? && IsQuote(line[i]) ==>
                     line[j] == ' ' || Blanked(line, inBlock, false, j)
  }

  /** The quotes a scan leaves are those that open a literal in code. */
  lemma QuotesLeft(line: string, inBlock: bool, i: nat)
    requires i < |line|
    ensures IsQuote(Scanned(line, inBlock, false)[i]) <==> ModeAt(line, inBlock, i).Code? && IsQuote(line[i])
    ensures Scanned(line, inBlock, false)[i] == ' ' <==> line[i] == ' ' || Blanked(line, inBlock, false, i)
  {
    hide ModeAt;
  }

  lemma BlankAfterQuoteOfInput(line: string, inBlock: bool)
    ensures BlankAfterQuote(Scanned(line, inBlock, false)) <==> NoCodeAfterLiteral(line, inBlock)
  {
    var out := Scanned(line, inBlock, false);
    hide ModeAt, Blanked, Scanned, IsQuote;
    forall i | 0 <= i < |line|
      ensures IsQuote(out[i]) <==> ModeAt(line, inBlock, i).Code? && IsQuote(line[i])
      ensures out[i] == ' ' <==> line[i] == ' ' || Blanked(line, inBlock, false, i)
    {
      QuotesLeft(line, inBlock, i);
    }
  }

  /** With literals blanked, scanning again changes nothing iff no input line has code after a literal opens. */
  lemma RescanBlankedText(lines: seq<string>)
    ensures ScannedText(ScannedText(lines, false), false) == ScannedText(lines, false)
       <==> forall k :: 0 <= k < |lines| ==> NoCodeAfterLiteral(lines[k], BlockBefore(lines, k))
  {
    hide ModeAt, NoCodeAfterLiteral, Scanned, BlankAfterQuote, BlockBefore;
    RescanScanned(lines);
    var out := ScannedText(lines, false);
    forall k | 0 <= k < |lines|
      ensures BlankAfterQuote(out[k]) <==> NoCodeAfterLiteral(lines[k], BlockBefore(lines, k))
    {
      BlankAfterQuoteOfInput(lines[k], BlockBefore(lines, k));
    }
  }

  lemma RescanScanned(lines: seq<string>)
    ensures var out := ScannedText(lines, false);
            ScannedText(out, false) == out <==> forall k :: 0 <= k < |out| ==> BlankAfterQuote(out[k])
  {
    var out := ScannedText(lines, false);
    forall k | 0 <= k < |out|
      ensures !ModeAt(out[k], false, |out[k]|).Block?
      ensures Scanned(out[k], false, false) == out[k] <==> BlankAfterQuote(out[k])
    {
      BlankedHasNoOpeners(lines[k], BlockBefore(lines, k));
      NoComments(out[k], |out[k]|);
      RescanBlankedLine(out[k]);
    }
    forall k | 0 <= k < |out| ensures !BlockBefore(out, k) {
      NoBlocks(out, k);
    }
    var again := ScannedText(out, false);
    assert forall k :: 0 <= k < |out| ==> again[k] == Scanned(out[k], false, false);
    if again == out {
      forall k | 0 <= k < |out| ensures BlankAfterQuote(out[k]) {
        assert again[k] == out[k];
      }
    }
  }

  /** The failure is real: one literal followed by code. */
  lemma BlankedIsNotIdempotent()
    ensures var once := ScannedText(["\"a\" b"], false);
            once == ["\"   b"] && ScannedText(once, false) != once
  {
    var line := "\"a\" b";
    var once := ScannedText([line], false);
    assert ModeAt(line, false, 1) == InString;
    assert ModeAt(line, false, 2) == InString;
    assert ModeAt(line, false, 3) == Code;
    assert ModeAt(line, false, 4) == Code;
    assert once[0] == "\"   b";
    RescanScanned([line]);
    assert IsQuote(once[0][0]) && once[0][4] != ' ';
  }
}

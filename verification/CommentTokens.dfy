/** The scanner against a grammar: a text is a sequence of tokens, and scanning it shows each token blanked. */
module CommentTokens {
  import opened Wrappers
  import opened TextLines
  import opened CommentScanner

  // ----- one mode over the whole text, lines ended by newlines

  function Text(lines: seq<string>): string {
    if lines == [] then "" else WithLine(Text(lines[..|lines| - 1]), lines[|lines| - 1])
  }

  function WithLine(a: string, line: string): (r: string)
    ensures |r| == |a| + |line| + 1
  {
    a + line + "\n"
  }

  /** A newline ends line comments and literals and keeps an open block. */
  function ModeIn(text: string, p: nat): Mode
    requires p <= |text|
  {
    if p == 0 then Code
    else
      var before := ModeIn(text, p - 1);
      if text[p - 1] == '\n' then (if before.Block? then Block else Code)
      else Next(before, text[p - 1], CharAt(text, p))
  }

  function ShownIn(text: string, preserve: bool, p: nat): char
    requires p < |text|
  {
    if text[p] != '\n' && BlankedIn(ModeIn(text, p), text[p], CharAt(text, p + 1), preserve) then ' ' else text[p]
  }

  function ScannedIn(text: string, preserve: bool): (r: string)
    ensures |r| == |text|
  {
    seq(|text|, p requires 0 <= p < |text| => ShownIn(text, preserve, p))
  }

  lemma {:induction false} ModeInPrefix(a: string, b: string, p: nat)
    requires p <= |a| && (p == |a| ==> a == "" || a[|a| - 1] == '\n')
    ensures ModeIn(a + b, p) == ModeIn(a, p)
  {
    if p != 0 {
      ModeWithin(a, b, p - 1);
    }
  }

  lemma {:induction false} ModeWithin(a: string, b: string, p: nat)
    requires p < |a|
    ensures ModeIn(a + b, p) == ModeIn(a, p)
  {
    if p != 0 {
      ModeWithin(a, b, p - 1);
    }
  }

  /** Within one more line the mode of the text is the mode of the line. */
  lemma {:induction false} ModeInLine(a: string, line: string, i: nat)
    requires OneLine(line) && i <= |line| && (a == "" || a[|a| - 1] == '\n')
    ensures var inBlock := ModeIn(a, |a|).Block?;
            ModeIn(WithLine(a, line), |a| + i) == ModeAt(line, inBlock, i)
  {
    var text := WithLine(a, line);
    if i == 0 {
      assert text == a + (line + "\n");
      ModeInPrefix(a, line + "\n", |a|);
      ModeAfterNewline(a);
    } else {
      ModeInLine(a, line, i - 1);
      assert text[|a| + i - 1] == line[i - 1];
      assert CharAt(text, |a| + i) == if i < |line| then Some(line[i]) else Some('\n');
    }
  }

  lemma ModeAfterNewline(a: string)
    requires a == "" || a[|a| - 1] == '\n'
    ensures ModeIn(a, |a|) == if ModeIn(a, |a|).Block? then Block else Code
  {
  }

  lemma TextEnds(lines: seq<string>)
    ensures Text(lines) == "" || Text(lines)[|Text(lines)| - 1] == '\n'
  {
  }

  /** The block state carried from line to line is the mode of the whole text where the line starts. */
  lemma {:induction false} CarriedBlock(lines: seq<string>, k: nat)
    requires k <= |lines| && forall j :: 0 <= j < |lines| ==> OneLine(lines[j])
    ensures BlockBefore(lines, k) <==> ModeIn(Text(lines[..k]), |Text(lines[..k])|).Block?
  {
    if k != 0 {
      CarriedBlock(lines, k - 1);
      assert lines[..k][..k - 1] == lines[..k - 1];
      TextEnds(lines[..k - 1]);
      BlockAfterLine(Text(lines[..k - 1]), lines[k - 1]);
    }
  }

  lemma BlockAfterLine(a: string, line: string)
    requires OneLine(line) && (a == "" || a[|a| - 1] == '\n')
    ensures var text := WithLine(a, line);
            ModeIn(text, |text|).Block? <==> ModeAt(line, ModeIn(a, |a|).Block?, |line|).Block?
  {
    ModeInLine(a, line, |line|);
    assert (WithLine(a, line))[|a| + |line|] == '\n';
  }

  lemma ShownBefore(a: string, b: string, preserve: bool, p: nat)
    requires p < |a| && a[|a| - 1] == '\n'
    ensures ShownIn(a + b, preserve, p) == ShownIn(a, preserve, p)
  {
    hide ModeIn, BlankedIn;
    ModeInPrefix(a, b, p);
  }

  lemma CharsOnLine(a: string, line: string, i: nat)
    requires i <= |line|
    ensures var text := WithLine(a, line);
            && |text| == |a| + |line| + 1 && text[|a| + i] == (if i < |line| then line[i] else '\n')
            && CharAt(text, |a| + i) == Some(if i < |line| then line[i] else '\n')
  {
  }

  lemma NewlineEndsLine(mode: Mode, c: char, preserve: bool)
    ensures BlankedIn(mode, c, Some('\n'), preserve) == BlankedIn(mode, c, None, preserve)
  {
  }

  lemma ShownOnLine(a: string, line: string, preserve: bool, i: nat)
    requires OneLine(line) && i < |line| && (a == "" || a[|a| - 1] == '\n')
    ensures ShownIn(WithLine(a, line), preserve, |a| + i) == Shown(line, ModeIn(a, |a|).Block?, preserve, i)
  {
    ModeInLine(a, line, i);
    CharsOnLine(a, line, i);
    CharsOnLine(a, line, i + 1);
    NewlineEndsLine(ModeAt(line, ModeIn(a, |a|).Block?, i), line[i], preserve);
    hide ModeIn, ModeAt, BlankedIn, WithLine;
  }

  lemma ShownAbove(a: string, line: string, preserve: bool, p: nat)
    requires p < |a| && a[|a| - 1] == '\n'
    ensures ShownIn(WithLine(a, line), preserve, p) == ShownIn(a, preserve, p)
  {
    assert WithLine(a, line) == a + (line + "\n");
    hide ModeIn, ShownIn, WithLine;
    ShownBefore(a, line + "\n", preserve, p);
  }

  lemma ShownNewline(a: string, line: string, preserve: bool)
    ensures ShownIn(WithLine(a, line), preserve, |a| + |line|) == '\n'
  {
    hide ModeIn, BlankedIn;
  }

  lemma WithLineAt(a: string, line: string, p: nat)
    requires p <= |a| + |line|
    ensures WithLine(a, line)[p] == if p < |a| then a[p] else if p < |a| + |line| then line[p - |a|] else '\n'
  {
  }

  lemma ScannedInAt(text: string, preserve: bool, p: nat)
    requires p < |text|
    ensures ScannedIn(text, preserve)[p] == ShownIn(text, preserve, p)
  {
  }

  lemma ScannedAt(line: string, inBlock: bool, preserve: bool, i: nat)
    requires i < |line|
    ensures Scanned(line, inBlock, preserve)[i] == Shown(line, inBlock, preserve, i)
  {
  }

  lemma ShownInside(a: string, line: string, preserve: bool, p: nat)
    requires OneLine(line) && (a == "" || a[|a| - 1] == '\n') && |a| <= p < |a| + |line|
    ensures ShownIn(WithLine(a, line), preserve, p) == Scanned(line, ModeIn(a, |a|).Block?, preserve)[p - |a|]
  {
    hide *;
    var i := p - |a|;
    assert p == |a| + i;
    ScannedAt(line, ModeIn(a, |a|).Block?, preserve, i);
    ShownOnLine(a, line, preserve, i);
  }

  lemma ShownAt(a: string, line: string, preserve: bool, p: nat)
    requires OneLine(line) && (a == "" || a[|a| - 1] == '\n') && p <= |a| + |line|
    ensures ShownIn(WithLine(a, line), preserve, p)
         == WithLine(ScannedIn(a, preserve), Scanned(line, ModeIn(a, |a|).Block?, preserve))[p]
  {
    hide *;
    WithLineAt(ScannedIn(a, preserve), Scanned(line, ModeIn(a, |a|).Block?, preserve), p);
    if p < |a| {
      ShownAbove(a, line, preserve, p);
      ScannedInAt(a, preserve, p);
    } else if p < |a| + |line| {
      ShownInside(a, line, preserve, p);
    } else {
      ShownNewline(a, line, preserve);
    }
  }

  lemma LineShown(a: string, line: string, preserve: bool)
    requires OneLine(line) && (a == "" || a[|a| - 1] == '\n')
    ensures ScannedIn(WithLine(a, line), preserve)
         == WithLine(ScannedIn(a, preserve), Scanned(line, ModeIn(a, |a|).Block?, preserve))
  {
    hide ModeIn, ModeAt, Shown, ShownIn, OneLine, WithLine, Scanned;
    var out := ScannedIn(WithLine(a, line), preserve);
    var whole := WithLine(ScannedIn(a, preserve), Scanned(line, ModeIn(a, |a|).Block?, preserve));
    forall p | 0 <= p < |out| ensures out[p] == whole[p] {
      ShownAt(a, line, preserve, p);
    }
  }

  /** Scanning line by line is scanning the text. */
  lemma {:induction false} LinesAreText(lines: seq<string>, preserve: bool)
    requires forall j :: 0 <= j < |lines| ==> OneLine(lines[j])
    ensures Text(ScannedText(lines, preserve)) == ScannedIn(Text(lines), preserve)
  {
    if lines != [] {
      var last := |lines| - 1;
      var init, out := lines[..last], ScannedText(lines, preserve);
      LinesAreText(init, preserve);
      CarriedBlock(lines, last);
      TextEnds(init);
      hide ModeIn, Scanned, ScannedIn, WithLine;
      LineShown(Text(init), lines[last], preserve);
      forall k | 0 <= k <= last ensures BlockBefore(lines, k) == BlockBefore(init, k) {
        CarriedOf(lines, init, k);
      }
      assert out[..last] == ScannedText(init, preserve);
    }
  }

  lemma {:induction false} CarriedOf(lines: seq<string>, init: seq<string>, k: nat)
    requires init <= lines && k <= |init|
    ensures BlockBefore(lines, k) == BlockBefore(init, k)
  {
    if k != 0 {
      CarriedOf(lines, init, k - 1);
    }
  }

  // ----- the grammar

  datatype Token =
    | Plain(c: char) | EndOfLine
    | ToEndOfLine(body: string)               // a line comment, with its newline
    | BlockComment(body: string) | OpenBlock(body: string)
    | Literal(quote: char, body: string) | OpenLiteral(quote: char, body: string)

  function Written(t: Token): string {
    match t
    case Plain(c) => [c]
    case EndOfLine => "\n"
    case ToEndOfLine(body) => "//" + body + "\n"
    case BlockComment(body) => "/*" + body + "*/"
    case OpenBlock(body) => "/*" + body
    case Literal(quote, body) => [quote] + body + [quote]
    case OpenLiteral(quote, body) => [quote] + body + "\n"
  }

  /** Comments are blank but for their newlines; a literal keeps its opening quote, and the rest on request. */
  function Shows(t: Token, preserve: bool): string {
    match t
    case Plain(c) => [c]
    case EndOfLine => "\n"
    case ToEndOfLine(body) => "  " + Blanks(|body|) + "\n"
    case BlockComment(body) => "  " + BlankedBody(body) + "  "
    case OpenBlock(body) => "  " + BlankedBody(body)
    case Literal(quote, body) => [quote] + Kept(body, preserve) + Kept([quote], preserve)
    case OpenLiteral(quote, body) => [quote] + Kept(body, preserve) + "\n"
  }

  function Kept(body: string, preserve: bool): (r: string)
    ensures |r| == |body|
  {
    if preserve then body else Blanks(|body|)
  }

  function BlankedBody(body: string): (r: string)
    ensures |r| == |body|
  {
    seq(|body|, i requires 0 <= i < |body| => if body[i] == '\n' then '\n' else ' ')
  }

  ghost predicate Unclosed(body: string) {
    forall i :: 0 <= i < |body| - 1 ==> !(body[i] == '*' && body[i + 1] == '/')
  }

  /** Characters other than the quote, a backslash and the newline, and backslashes with the character after them. */
  predicate Contents(body: string, quote: char) {
    || body == ""
    || (body[0] != quote && body[0] != '\\' && body[0] != '\n' && Contents(body[1..], quote))
    || (|body| >= 2 && body[0] == '\\' && body[1] != '\n' && Contents(body[2..], quote))
  }

  /** Contents, with a backslash of its own at the end or not. */
  predicate OpenContents(body: string, quote: char) {
    Contents(body, quote) || (body != "" && body[|body| - 1] == '\\' && Contents(body[..|body| - 1], quote))
  }

  /** What a token is, given the text that follows it. */
  ghost predicate Proper(t: Token, rest: string) {
    match t
    case Plain(c) =>
      c != '\n' && !IsQuote(c) && !(c == '/' && rest != "" && (rest[0] == '/' || rest[0] == '*'))
    case EndOfLine => true
    case ToEndOfLine(body) => OneLine(body)
    case BlockComment(body) => Unclosed(body)
    case OpenBlock(body) => Unclosed(body) && rest == ""
    case Literal(quote, body) => IsQuote(quote) && Contents(body, quote)
    case OpenLiteral(quote, body) => IsQuote(quote) && OpenContents(body, quote)
  }

  function WrittenAll(ts: seq<Token>): string {
    if ts == [] then "" else Written(ts[0]) + WrittenAll(ts[1..])
  }

  function ShowsAll(ts: seq<Token>, preserve: bool): string {
    if ts == [] then "" else Shows(ts[0], preserve) + ShowsAll(ts[1..], preserve)
  }

  ghost predicate Lexed(ts: seq<Token>) {
    ts == [] || (Proper(ts[0], WrittenAll(ts[1..])) && Lexed(ts[1..]))
  }

  // ----- how the mode goes through each token

  ghost predicate At(text: string, o: nat, s: string) {
    o + |s| <= |text| && text[o..o + |s|] == s
  }

  /** The positions from `o` on are shown as `s`. */
  ghost predicate ShownAs(text: string, preserve: bool, o: nat, s: string) {
    o + |s| <= |text| && forall p :: o <= p < o + |s| ==> ShownIn(text, preserve, p) == s[p - o]
  }

  lemma AtParts(text: string, o: nat, a: string, b: string)
    requires At(text, o, a + b)
    ensures At(text, o, a) && At(text, o + |a|, b)
  {
    assert text[o..o + |a + b|][..|a|] == a && text[o..o + |a + b|][|a|..] == b;
  }

  lemma ShownParts(text: string, preserve: bool, o: nat, a: string, b: string)
    requires ShownAs(text, preserve, o, a) && ShownAs(text, preserve, o + |a|, b)
    ensures ShownAs(text, preserve, o, a + b)
  {
    hide ShownIn;
  }

  lemma {:induction false} LineWalk(text: string, o: nat, j: nat)
    requires o <= j <= |text| && ModeIn(text, o).LineComment? && forall i :: o <= i < j ==> text[i] != '\n'
    ensures ModeIn(text, j).LineComment?
  {
    if o < j {
      LineWalk(text, o, j - 1);
    }
  }

  lemma {:induction false} BlockWalk(text: string, o: nat, j: nat)
    requires o <= j <= |text| && ModeIn(text, o).Block?
    requires forall i :: o <= i < j ==> !(text[i] == '*' && CharAt(text, i + 1) == Some('/'))
    ensures ModeIn(text, j).Block?
  {
    if o < j {
      BlockWalk(text, o, j - 1);
    }
  }

  function LiteralMode(quote: char): Mode {
    if quote == '"' then InString else InCharacter
  }

  lemma {:induction false} LiteralWalk(text: string, o: nat, body: string, quote: char)
    requires o + |body| <= |text| && text[o..o + |body|] == body && IsQuote(quote) && Contents(body, quote)
    requires ModeIn(text, o) == LiteralMode(quote)
    ensures ModeIn(text, o + |body|) == LiteralMode(quote)
    ensures forall i :: o <= i < o + |body| ==> IsLiteral(ModeIn(text, i)) && text[i] != '\n'
    decreases |body|
  {
    if body != "" {
      assert text[o] == body[0];
      if body[0] != quote && body[0] != '\\' && body[0] != '\n' && Contents(body[1..], quote) {
        LiteralWalk(text, o + 1, body[1..], quote);
      } else {
        assert text[o + 1] == body[1];
        assert ModeIn(text, o + 2) == Next(ModeIn(text, o + 1), text[o + 1], CharAt(text, o + 2));
        LiteralWalk(text, o + 2, body[2..], quote);
      }
    }
  }

  lemma OneStep(text: string, preserve: bool, o: nat)
    requires o < |text|
    ensures var mode, next := ModeIn(text, o), CharAt(text, o + 1);
            && ModeIn(text, o + 1) == (if text[o] == '\n' then (if mode.Block? then Block else Code) else Next(mode, text[o], next))
            && ShownIn(text, preserve, o)
               == if text[o] != '\n' && BlankedIn(mode, text[o], next, preserve) then ' ' else text[o]
  {
  }

  lemma CharGoes(text: string, preserve: bool, o: nat, c: char, shown: char)
    requires o < |text| && text[o] == c && ShownIn(text, preserve, o) == shown
    ensures At(text, o, [c]) && ShownAs(text, preserve, o, [shown])
  {
    hide ShownIn;
  }

  lemma AtChar(text: string, o: nat, c: char)
    requires At(text, o, [c])
    ensures o < |text| && text[o] == c
  {
    assert text[o..o + 1][0] == text[o];
  }

  lemma NewlineGoes(text: string, preserve: bool, o: nat)
    requires At(text, o, "\n") && !ModeIn(text, o).Block?
    ensures ShownAs(text, preserve, o, "\n") && ModeIn(text, o + 1).Code?
  {
    AtChar(text, o, '\n');
    OneStep(text, preserve, o);
    CharGoes(text, preserve, o, '\n', '\n');
  }

  /** Two characters shown as blanks: an opener in code, or the closer of a block. */
  lemma PairGoes(text: string, preserve: bool, o: nat, a: char, b: char)
    requires At(text, o, [a, b])
    requires (ModeIn(text, o).Code? && a == '/' && (b == '/' || b == '*')) || (ModeIn(text, o).Block? && a == '*' && b == '/')
    ensures ShownAs(text, preserve, o, "  ")
    ensures ModeIn(text, o + 2) == if a == '*' then Code else if b == '/' then LineComment else Block
  {
    assert [a, b] == [a] + [b];
    AtParts(text, o, [a], [b]);
    AtChar(text, o, a);
    AtChar(text, o + 1, b);
    OneStep(text, preserve, o);
    OneStep(text, preserve, o + 1);
    hide ModeIn, ShownIn;
  }

  lemma LineBodyGoes(text: string, preserve: bool, o: nat, body: string)
    requires At(text, o, body) && ModeIn(text, o).LineComment? && OneLine(body)
    ensures ShownAs(text, preserve, o, Blanks(|body|)) && ModeIn(text, o + |body|).LineComment?
  {
    assert forall p :: o <= p < o + |body| ==> text[p] == text[o..o + |body|][p - o] == body[p - o];
    forall p | o <= p <= o + |body| ensures ModeIn(text, p).LineComment? {
      LineWalk(text, o, p);
    }
    hide ModeIn;
  }

  lemma BlockBodyGoes(text: string, preserve: bool, o: nat, body: string)
    requires At(text, o, body) && ModeIn(text, o).Block? && Unclosed(body)
    requires var n := o + |body|; n == |text| || text[n] != '/'
    ensures ShownAs(text, preserve, o, BlankedBody(body)) && ModeIn(text, o + |body|).Block?
  {
    var n := o + |body|;
    assert forall p :: o <= p < n ==> text[p] == text[o..n][p - o] == body[p - o];
    forall p | o <= p < n ensures !(text[p] == '*' && CharAt(text, p + 1) == Some('/')) {
      if p + 1 < n {
        assert !(body[p - o] == '*' && body[p - o + 1] == '/');
      }
    }
    forall p | o <= p <= n ensures ModeIn(text, p).Block? {
      BlockWalk(text, o, p);
    }
    hide ModeIn;
  }

  lemma QuoteGoes(text: string, preserve: bool, o: nat, quote: char)
    requires At(text, o, [quote]) && IsQuote(quote) && ModeIn(text, o).Code?
    ensures ShownAs(text, preserve, o, [quote]) && ModeIn(text, o + 1) == LiteralMode(quote)
  {
    AtChar(text, o, quote);
    OneStep(text, preserve, o);
    hide ModeIn;
    CharGoes(text, preserve, o, quote, quote);
  }

  lemma ContentsGo(text: string, preserve: bool, o: nat, body: string, quote: char)
    requires At(text, o, body) && IsQuote(quote) && Contents(body, quote) && ModeIn(text, o) == LiteralMode(quote)
    ensures ShownAs(text, preserve, o, Kept(body, preserve)) && ModeIn(text, o + |body|) == LiteralMode(quote)
  {
    LiteralWalk(text, o, body, quote);
    assert forall p :: o <= p < o + |body| ==> text[p] == text[o..o + |body|][p - o] == body[p - o];
    hide ModeIn;
  }

  /** The closing quote, or a backslash that nothing follows on the line. */
  lemma LastOfLiteralGoes(text: string, preserve: bool, o: nat, c: char, quote: char)
    requires At(text, o, [c]) && IsQuote(quote) && ModeIn(text, o) == LiteralMode(quote) && (c == quote || c == '\\')
    ensures ShownAs(text, preserve, o, Kept([c], preserve))
    ensures if c == quote then ModeIn(text, o + 1).Code? else IsLiteral(ModeIn(text, o + 1))
  {
    AtChar(text, o, c);
    OneStep(text, preserve, o);
    hide ModeIn;
    assert Blanks(1) == " ";
    CharGoes(text, preserve, o, c, Kept([c], preserve)[0]);
    assert Kept([c], preserve) == [Kept([c], preserve)[0]];
  }

  lemma KeptParts(a: string, b: string, preserve: bool)
    ensures Kept(a + b, preserve) == Kept(a, preserve) + Kept(b, preserve)
  {
    if !preserve {
      assert |Blanks(|a + b|)| == |Blanks(|a|) + Blanks(|b|)|;
    }
  }

  // ----- one token

  /** The token stands at `o`, where code is read. */
  ghost predicate StandsAt(text: string, o: nat, t: Token) {
    At(text, o, Written(t)) && ModeIn(text, o).Code? && Proper(t, text[o + |Written(t)|..])
  }

  /** It is shown as the grammar says, and code is read after it. */
  ghost predicate GoesThrough(text: string, preserve: bool, o: nat, t: Token) {
    && |Shows(t, preserve)| == |Written(t)| && ShownAs(text, preserve, o, Shows(t, preserve))
    && (t.OpenBlock? || ModeIn(text, o + |Written(t)|).Code?)
  }

  lemma PlainGoes(text: string, preserve: bool, o: nat, c: char)
    requires StandsAt(text, o, Plain(c))
    ensures GoesThrough(text, preserve, o, Plain(c))
  {
    AtChar(text, o, c);
    OneStep(text, preserve, o);
    hide ModeIn;
    assert CharAt(text, o + 1) == if text[o + 1..] == "" then None else Some(text[o + 1..][0]);
    CharGoes(text, preserve, o, c, c);
  }

  lemma LineCommentGoes(text: string, preserve: bool, o: nat, body: string)
    requires StandsAt(text, o, ToEndOfLine(body))
    ensures GoesThrough(text, preserve, o, ToEndOfLine(body))
  {
    hide At, ShownAs, ModeIn, ShownIn;
    AtParts(text, o, "//" + body, "\n");
    AtParts(text, o, "//", body);
    PairGoes(text, preserve, o, '/', '/');
    LineBodyGoes(text, preserve, o + 2, body);
    NewlineGoes(text, preserve, o + 2 + |body|);
    ShownParts(text, preserve, o, "  ", Blanks(|body|));
    ShownParts(text, preserve, o, "  " + Blanks(|body|), "\n");
  }

  lemma StarAt(text: string, o: nat)
    requires At(text, o, "*/")
    ensures o < |text| && text[o] == '*'
  {
    assert text[o..o + 2][0] == text[o];
  }

  lemma BlockPieces(text: string, preserve: bool, o: nat, body: string)
    requires At(text, o, "/*") && At(text, o + 2, body) && At(text, o + 2 + |body|, "*/")
    requires ModeIn(text, o).Code? && Unclosed(body)
    ensures ShownAs(text, preserve, o, "  ") && ShownAs(text, preserve, o + 2, BlankedBody(body))
    ensures ShownAs(text, preserve, o + 2 + |body|, "  ") && ModeIn(text, o + 2 + |body| + 2).Code?
  {
    hide *;
    StarAt(text, o + 2 + |body|);
    PairGoes(text, preserve, o, '/', '*');
    BlockBodyGoes(text, preserve, o + 2, body);
    PairGoes(text, preserve, o + 2 + |body|, '*', '/');
  }

  lemma BlockCommentGoes(text: string, preserve: bool, o: nat, body: string)
    requires StandsAt(text, o, BlockComment(body))
    ensures GoesThrough(text, preserve, o, BlockComment(body))
  {
    hide At, ShownAs, ModeIn, ShownIn, Unclosed, BlankedBody;
    AtParts(text, o, "/*" + body, "*/");
    AtParts(text, o, "/*", body);
    BlockPieces(text, preserve, o, body);
    ShownParts(text, preserve, o, "  ", BlankedBody(body));
    ShownParts(text, preserve, o, "  " + BlankedBody(body), "  ");
  }

  lemma OpenBlockGoes(text: string, preserve: bool, o: nat, body: string)
    requires StandsAt(text, o, OpenBlock(body))
    ensures GoesThrough(text, preserve, o, OpenBlock(body))
  {
    AtParts(text, o, "/*", body);
    assert o + 2 + |body| == |text|;
    hide At, ShownAs, ModeIn, ShownIn, Unclosed;
    PairGoes(text, preserve, o, '/', '*');
    BlockBodyGoes(text, preserve, o + 2, body);
    ShownParts(text, preserve, o, "  ", BlankedBody(body));
  }

  lemma LiteralGoes(text: string, preserve: bool, o: nat, quote: char, body: string)
    requires StandsAt(text, o, Literal(quote, body))
    ensures GoesThrough(text, preserve, o, Literal(quote, body))
  {
    hide At, ShownAs, ModeIn, ShownIn, Contents;
    AtParts(text, o, [quote] + body, [quote]);
    AtParts(text, o, [quote], body);
    QuoteGoes(text, preserve, o, quote);
    ContentsGo(text, preserve, o + 1, body, quote);
    LastOfLiteralGoes(text, preserve, o + 1 + |body|, quote, quote);
    ShownParts(text, preserve, o, [quote], Kept(body, preserve));
    ShownParts(text, preserve, o, [quote] + Kept(body, preserve), Kept([quote], preserve));
  }

  lemma OpenContentsGo(text: string, preserve: bool, o: nat, body: string, quote: char)
    requires At(text, o, body) && IsQuote(quote) && OpenContents(body, quote) && ModeIn(text, o) == LiteralMode(quote)
    ensures ShownAs(text, preserve, o, Kept(body, preserve)) && IsLiteral(ModeIn(text, o + |body|))
  {
    hide At, ShownAs, ModeIn, ShownIn, Contents;
    if Contents(body, quote) {
      ContentsGo(text, preserve, o, body, quote);
    } else {
      var inner := body[..|body| - 1];
      assert body == inner + "\\";
      AtParts(text, o, inner, "\\");
      ContentsGo(text, preserve, o, inner, quote);
      LastOfLiteralGoes(text, preserve, o + |inner|, '\\', quote);
      ShownParts(text, preserve, o, Kept(inner, preserve), Kept("\\", preserve));
      KeptParts(inner, "\\", preserve);
    }
  }

  lemma OpenLiteralGoes(text: string, preserve: bool, o: nat, quote: char, body: string)
    requires StandsAt(text, o, OpenLiteral(quote, body))
    ensures GoesThrough(text, preserve, o, OpenLiteral(quote, body))
  {
    hide At, ShownAs, ModeIn, ShownIn, OpenContents, Kept;
    AtParts(text, o, [quote] + body, "\n");
    AtParts(text, o, [quote], body);
    QuoteGoes(text, preserve, o, quote);
    OpenContentsGo(text, preserve, o + 1, body, quote);
    NewlineGoes(text, preserve, o + 1 + |body|);
    ShownParts(text, preserve, o, [quote], Kept(body, preserve));
    ShownParts(text, preserve, o, [quote] + Kept(body, preserve), "\n");
  }

  lemma TokenGoes(text: string, preserve: bool, o: nat, t: Token)
    requires StandsAt(text, o, t)
    ensures GoesThrough(text, preserve, o, t)
  {
    match t
    case Plain(c) => PlainGoes(text, preserve, o, c);
    case EndOfLine => NewlineGoes(text, preserve, o);
    case ToEndOfLine(body) => LineCommentGoes(text, preserve, o, body);
    case BlockComment(body) => BlockCommentGoes(text, preserve, o, body);
    case OpenBlock(body) => OpenBlockGoes(text, preserve, o, body);
    case Literal(quote, body) => LiteralGoes(text, preserve, o, quote, body);
    case OpenLiteral(quote, body) => OpenLiteralGoes(text, preserve, o, quote, body);
  }

  // ----- the whole text

  lemma WrittenIsSomething(t: Token)
    ensures Written(t) != ""
  {
  }

  lemma {:induction false} TokensGo(text: string, preserve: bool, o: nat, ts: seq<Token>)
    requires o <= |text| && text[o..] == WrittenAll(ts) && Lexed(ts) && (ts != [] ==> ModeIn(text, o).Code?)
    ensures |ShowsAll(ts, preserve)| == |WrittenAll(ts)| && ShownAs(text, preserve, o, ShowsAll(ts, preserve))
    decreases |ts|
  {
    if ts != [] {
      var t, rest := ts[0], ts[1..];
      var n := o + |Written(t)|;
      hide ShownAs, Written, Shows, ModeIn, Proper, At;
      TextParts(text, o, Written(t), WrittenAll(rest));
      TokenStands(text, o, t, WrittenAll(rest));
      TokenGoes(text, preserve, o, t);
      if rest != [] {
        NotLast(t, rest);
      }
      TokensGo(text, preserve, n, rest);
      ShownParts(text, preserve, o, Shows(t, preserve), ShowsAll(rest, preserve));
    }
  }

  lemma TextParts(text: string, o: nat, a: string, b: string)
    requires o <= |text| && text[o..] == a + b
    ensures At(text, o, a) && text[o + |a|..] == b
  {
    assert text[o..][..|a|] == a && text[o..][|a|..] == b;
  }

  lemma TokenStands(text: string, o: nat, t: Token, rest: string)
    requires At(text, o, Written(t)) && ModeIn(text, o).Code? && text[o + |Written(t)|..] == rest && Proper(t, rest)
    ensures StandsAt(text, o, t)
  {
  }

  lemma NotLast(t: Token, rest: seq<Token>)
    requires rest != [] && Proper(t, WrittenAll(rest))
    ensures !t.OpenBlock?
  {
    WrittenIsSomething(rest[0]);
    hide Written;
  }

  /** However a text is cut into tokens, scanning shows each of them as the grammar says. */
  lemma ScannedIsShown(ts: seq<Token>, preserve: bool)
    requires Lexed(ts)
    ensures ScannedIn(WrittenAll(ts), preserve) == ShowsAll(ts, preserve)
  {
    var text := WrittenAll(ts);
    assert text[0..] == text;
    TokensGo(text, preserve, 0, ts);
    hide Lexed, WrittenAll, ShowsAll, ShownIn;
    assert forall p :: 0 <= p < |text| ==> ShownIn(text, preserve, p) == ShowsAll(ts, preserve)[p - 0];
  }

  // ----- every text has its tokens

  ghost predicate Ended(text: string) {
    text == "" || text[|text| - 1] == '\n'
  }

  /** The contents that start a text: as long as the quote, the newline or a backslash before it are not met. */
  lemma {:induction false} ContentsOf(text: string, quote: char) returns (n: nat)
    requires text != "" && Ended(text) && IsQuote(quote)
    ensures n < |text| && Contents(text[..n], quote)
    ensures text[n] == quote || text[n] == '\n' || (text[n] == '\\' && n + 1 < |text| && text[n + 1] == '\n')
  {
    if text[0] == quote || text[0] == '\n' {
      n := 0;
    } else if text[0] != '\\' {
      n := ContentsOf(text[1..], quote);
      n := n + 1;
      assert text[..n][1..] == text[1..][..n - 1];
    } else if text[1] == '\n' {
      n := 0;
    } else {
      n := ContentsOf(text[2..], quote);
      n := n + 2;
      assert text[..n][2..] == text[2..][..n - 2];
    }
  }

  // Where a block comment that started before the text closes, if it does.
  lemma {:induction false} CloserOf(text: string) returns (n: Option<nat>)
    ensures n.Some? ==> n.value + 2 <= |text| && text[n.value..n.value + 2] == "*/" && Unclosed(text[..n.value])
    ensures n.None? ==> Unclosed(text)
  {
    if |text| < 2 {
      n := None;
    } else if text[0] == '*' && text[1] == '/' {
      n := Some(0);
      assert text[0..2] == "*/";
    } else {
      var rest := CloserOf(text[1..]);
      if rest.Some? {
        n := Some(rest.value + 1);
        UnclosedMore(text, n.value);
      } else {
        n := None;
        UnclosedMore(text, |text|);
      }
    }
  }

  lemma UnclosedMore(text: string, n: nat)
    requires 1 <= n <= |text| && !(|text| >= 2 && text[0] == '*' && text[1] == '/') && Unclosed(text[1..][..n - 1])
    ensures Unclosed(text[..n])
  {
    forall i | 0 <= i < n - 1 ensures !(text[i] == '*' && text[i + 1] == '/') {
      if i > 0 {
        assert text[1..][..n - 1][i - 1] == text[i] && text[1..][..n - 1][i] == text[i + 1];
      }
    }
  }

  lemma {:induction false} NewlineOf(text: string, from: nat) returns (n: nat)
    requires from < |text| && Ended(text)
    ensures from <= n < |text| && text[n] == '\n' && OneLine(text[from..n])
    decreases |text| - from
  {
    if text[from] == '\n' {
      n := from;
    } else {
      n := NewlineOf(text, from + 1);
      assert text[from..n] == [text[from]] + text[from + 1..n];
    }
  }

  /** The token a text starts with. */
  lemma FirstToken(text: string) returns (t: Token)
    requires text != "" && Ended(text)
    ensures |Written(t)| <= |text| && text[..|Written(t)|] == Written(t) && Proper(t, text[|Written(t)|..])
  {
    var c := text[0];
    if c == '\n' {
      t := EndOfLine;
    } else if c == '/' && text[1] == '/' {
      var n := NewlineOf(text, 2);
      t := ToEndOfLine(text[2..n]);
      assert text[..n + 1] == Written(t);
    } else if c == '/' && text[1] == '*' {
      t := FirstBlock(text);
    } else if IsQuote(c) {
      t := FirstLiteral(text);
    } else {
      t := Plain(c);
    }
  }

  lemma FirstBlock(text: string) returns (t: Token)
    requires |text| >= 2 && text[0] == '/' && text[1] == '*'
    ensures |Written(t)| <= |text| && text[..|Written(t)|] == Written(t) && Proper(t, text[|Written(t)|..])
  {
    var rest := text[2..];
    var n := CloserOf(rest);
    if n.Some? {
      t := BlockComment(rest[..n.value]);
      assert rest[..n.value + 2] == rest[..n.value] + rest[n.value..n.value + 2];
      assert text[..n.value + 4] == Written(t);
    } else {
      t := OpenBlock(rest);
      assert text == Written(t);
    }
  }

  lemma FirstLiteral(text: string) returns (t: Token)
    requires |text| >= 2 && Ended(text) && IsQuote(text[0])
    ensures |Written(t)| <= |text| && text[..|Written(t)|] == Written(t) && Proper(t, text[|Written(t)|..])
  {
    var quote, rest := text[0], text[1..];
    var n := ContentsOf(rest, quote);
    hide Contents, Ended;
    if rest[n] == quote {
      t := Literal(quote, rest[..n]);
      Quoted(text, n, [quote]);
    } else if rest[n] == '\n' {
      t := OpenLiteral(quote, rest[..n]);
      Quoted(text, n, "\n");
    } else {
      t := OpenLiteral(quote, rest[..n + 1]);
      assert rest[..n + 1][..n] == rest[..n];
      Quoted(text, n + 1, "\n");
    }
  }

  lemma Quoted(text: string, n: nat, last: string)
    requires n + 2 <= |text| && last == [text[n + 1]]
    ensures text[..n + 2] == [text[0]] + text[1..][..n] + last
  {
  }

  /** Every text of whole lines is cut into tokens. */
  lemma {:induction false} TokensOf(text: string) returns (ts: seq<Token>)
    requires Ended(text)
    ensures Lexed(ts) && WrittenAll(ts) == text
    decreases |text|
  {
    if text == "" {
      ts := [];
    } else {
      var t := FirstToken(text);
      WrittenIsSomething(t);
      var rest := TokensOf(text[|Written(t)|..]);
      ts := [t] + rest;
      assert ts[1..] == rest;
      hide Written, Proper;
    }
  }

  /** What the scanner shows of any lines is their tokens, comments and literal contents blanked. */
  lemma ScannerMeaning(lines: seq<string>, preserve: bool) returns (ts: seq<Token>)
    requires forall j :: 0 <= j < |lines| ==> OneLine(lines[j])
    ensures Lexed(ts) && WrittenAll(ts) == Text(lines) && ShowsAll(ts, preserve) == Text(ScannedText(lines, preserve))
  {
    hide Lexed, WrittenAll, ShowsAll, ScannedIn, ScannedText;
    TextEnds(lines);
    ts := TokensOf(Text(lines));
    ScannedIsShown(ts, preserve);
    LinesAreText(lines, preserve);
  }
}

/**
 The character array generator, tools/char_ary_gen.py: it reads one line of
 text and prints a VHDL aggregate holding the code point of every character
 as a hexadecimal bit-string literal, framed by CR, LF in front and LF, CR
 behind, followed by two VHDL comment lines that echo the text and report
 the framed length.

 The standard streams are left out: the input line is the parameter `s`
 (or `obj`, the script's own name) and the output is the text that the
 script's `print` calls write, with their `sep` and `end` arguments applied.
 */
module CharAryGen {
  import Numerals
  import VhdlLiteral
  import Texts

  /** The notice printed before the input is read. */
  const Banner: string := "Character array generator program running."

  /** The digits of the carriage-return and line-feed framing elements, as
      the script writes them: two digits, with a leading zero. */
  const CrDigits: string := "0d"
  const LfDigits: string := "0a"

  /** The opening of the line, `(x"0d", x"0a", `: the parenthesis, the
      leading CR, LF elements and a separator, printed with `end=''` so that
      the characters follow on the same line. */
  const Prefix: string := "(" + VhdlLiteral.Join([CrDigits, LfDigits]) + ", "

  /** What follows the last character's element, `, x"0a", x"0d");`: a
      separator, the trailing LF, CR elements and the closing parenthesis
      and semicolon. */
  const Trailer: string := ", " + VhdlLiteral.Join([LfDigits, CrDigits]) + ");"

  /** The text of the length comment before the number. It is written as
      two literals only so that `NoLineBreaks` can show it holds no line
      break: the solver does not decide that for one literal this long. */
  const LengthLabel: string := "-- string length" + " containing CRLF on head and tail:"

  /** The opening is the text of the script's first `print` of the array. */
  lemma PrefixText()
    ensures Prefix == "(x\"0d\", x\"0a\", "
  {
    assert VhdlLiteral.Wrap(CrDigits) == "x\"0d\"";
    assert VhdlLiteral.Wrap(LfDigits) == "x\"0a\"";
    assert VhdlLiteral.Join([CrDigits, LfDigits]) == "x\"0d\"" + ", " + "x\"0a\"";
  }

  /** The closing clause is the text the script's last-character branch
      writes after that character's element. */
  lemma TrailerText()
    ensures Trailer == ", x\"0a\", x\"0d\");"
  {
    assert VhdlLiteral.Join([LfDigits, CrDigits]) == "x\"0a\"" + ", " + "x\"0d\"";
  }

  /** Python's `ord`: the code point of a character. */
  function Code(c: char): nat {
    c as nat
  }

  /** The element for one character: `x"<%x of its code point>"`. */
  function Elem(c: char): string {
    VhdlLiteral.Wrap(Numerals.HexDigits(Code(c)))
  }

  /** What one pass of the loop prints for character `c` at 1-based position
      `idx` of a text of length `objlen`: a separator after every character
      but the last, the closing clause and a line break after the last. */
  function Piece(c: char, idx: nat, objlen: nat): (r: string)
    ensures |r| > |Elem(c)| && r[..|Elem(c)|] == Elem(c)
    ensures ')' in r <==> idx >= objlen
    ensures '\n' in r <==> idx >= objlen
    ensures idx < objlen ==> r[|Elem(c)|..] == ", "
  {
    if idx < objlen then Elem(c) + ", " else Elem(c) + Trailer + "\n"
  }

  /** The characters' part of the array line, defined from the front: an
      element and a separator, or the last element and the closing clause. */
  function Body(s: string): string
    decreases |s|
  {
    if |s| == 0 then ""
    else if |s| == 1 then Elem(s[0]) + Trailer + "\n"
    else Elem(s[0]) + ", " + Body(s[1..])
  }

  /** Everything the script prints between the banner and the echo line. */
  function ArrayLine(s: string): (r: string)
    ensures |r| >= |Prefix| && r[..|Prefix|] == Prefix
  {
    Prefix + Body(s)
  }

  /** The script's loop as written: an accumulator for the printed text, the
      1-based counter `idx` and one branch per character. */
  method GenerateArrayLine(obj: string) returns (line: string)
    ensures line == ArrayLine(obj)
  {
    var objlen := |obj|;
    var idx := 1;
    line := Prefix;
    var k := 0;
    while k < |obj|
      invariant 0 <= k <= |obj| && idx == k + 1
      invariant line + Body(obj[k..]) == ArrayLine(obj)
    {
      var charr := obj[k];
      BodyStep(obj, k);
      Texts.Assoc3(line, Piece(charr, idx, objlen), Body(obj[k + 1..]));
      line := line + Piece(charr, idx, objlen);
      idx := idx + 1;
      k := k + 1;
    }
    assert obj[k..] == [];
  }

  /** Peeling one character off the front of `Body` is one pass of the loop. */
  lemma BodyStep(s: string, k: nat)
    requires k < |s|
    ensures Body(s[k..]) == Piece(s[k], k + 1, |s|) + Body(s[k + 1..])
  {
    if k + 1 < |s| {
      assert s[k..][1..] == s[k + 1..];
    } else {
      assert s[k + 1..] == [];
    }
  }

  /** The code points of the input, in order. */
  function Codes(s: string): (cs: seq<nat>)
    ensures |cs| == |s|
  {
    seq(|s|, i requires 0 <= i < |s| => Code(s[i]))
  }

  /** The framed byte sequence: CR, LF, the code points, LF, CR. */
  function Framed(s: string): seq<nat> {
    [0x0d, 0x0a] + Codes(s) + [0x0a, 0x0d]
  }

  /** The hex digits written for each character. */
  function HexTexts(s: string): (ds: seq<string>)
    ensures |ds| == |s|
    ensures forall d <- ds :: |d| >= 1 && Numerals.AllDigits(d, 16)
  {
    seq(|s|, i requires 0 <= i < |s| => Numerals.HexDigits(Code(s[i])))
  }

  /** The digit texts of all elements of the line, framing included. */
  function FramedTexts(s: string): (ds: seq<string>)
    ensures |ds| == |s| + 4
    ensures forall d <- ds :: |d| >= 1 && Numerals.AllDigits(d, 16)
  {
    [CrDigits, LfDigits] + HexTexts(s) + [LfDigits, CrDigits]
  }

  /** The framing digits are hex digits denoting CR (13) and LF (10). */
  lemma FramingValues()
    ensures VhdlLiteral.IsHexText(CrDigits) && Numerals.Parse(CrDigits, 16) == 0x0d
    ensures VhdlLiteral.IsHexText(LfDigits) && Numerals.Parse(LfDigits, 16) == 0x0a
  {
    assert CrDigits == "0" + ['d'] && LfDigits == "0" + ['a'];
    assert "0" == [] + ['0'];
    Numerals.ParseSnoc([], '0', 16);
    Numerals.ParseSnoc("0", 'd', 16);
    Numerals.ParseSnoc("0", 'a', 16);
  }

  /** For a non-empty input the characters' part of the line is the list of
      their elements and the trailing LF, CR elements, closed by `);` and a
      line break. */
  lemma {:induction false} BodyIsJoin(s: string)
    requires |s| >= 1
    ensures Body(s) == VhdlLiteral.Join(HexTexts(s) + [LfDigits, CrDigits]) + ");" + "\n"
    decreases |s|
  {
    var e := Elem(s[0]);
    JoinFront(s);
    if |s| == 1 {
      assert HexTexts(s[1..]) + [LfDigits, CrDigits] == [LfDigits, CrDigits];
      Regroup(e, ", ", VhdlLiteral.Join([LfDigits, CrDigits]));
    } else {
      BodyIsJoin(s[1..]);
      Regroup(e, ", ", VhdlLiteral.Join(HexTexts(s[1..]) + [LfDigits, CrDigits]));
    }
  }

  /** Regrouping an element, a separator and the rest of a closed line. */
  lemma Regroup(e: string, sep: string, rest: string)
    ensures e + (sep + rest + ");") + "\n" == e + sep + rest + ");" + "\n"
    ensures e + sep + (rest + ");" + "\n") == e + sep + rest + ");" + "\n"
  {
  }

  /** The first element of the closing list is the first character's: the
      rest follows after a separator. */
  lemma JoinFront(s: string)
    requires |s| >= 1
    ensures VhdlLiteral.Join(HexTexts(s) + [LfDigits, CrDigits])
      == Elem(s[0]) + ", " + VhdlLiteral.Join(HexTexts(s[1..]) + [LfDigits, CrDigits])
  {
    var hs := HexTexts(s);
    var ds := hs + [LfDigits, CrDigits];
    assert ds[0] == hs[0];
    HexTextsTail(s);
    assert ds[1..] == hs[1..] + [LfDigits, CrDigits];
  }

  /** Dropping the first character drops its digit text. */
  lemma HexTextsTail(s: string)
    requires |s| >= 1
    ensures HexTexts(s)[1..] == HexTexts(s[1..])
  {
    assert forall i :: 0 <= i < |s| - 1 ==> HexTexts(s)[1..][i] == HexTexts(s[1..])[i];
  }

  /** For a non-empty input the array line is exactly the aggregate of the
      framed elements followed by a line break. */
  lemma ArrayLineIsLiteral(s: string)
    requires |s| >= 1
    ensures ArrayLine(s) == VhdlLiteral.Literal(FramedTexts(s)) + "\n"
  {
    var head := VhdlLiteral.Join([CrDigits, LfDigits]);
    var ds := HexTexts(s) + [LfDigits, CrDigits];
    var j := VhdlLiteral.Join(ds);
    assert FramedTexts(s) == [CrDigits, LfDigits] + ds;
    VhdlLiteral.JoinAppend([CrDigits, LfDigits], ds);
    BodyIsJoin(s);
    calc {
      ArrayLine(s);
      "(" + head + ", " + (j + ");" + "\n");
      { Texts.Assoc3("(" + head + ", ", j + ");", "\n");
        Texts.Assoc3("(" + head + ", ", j, ");"); }
      "(" + head + ", " + j + ");" + "\n";
      { Texts.Assoc3("(", head + ", ", j);
        Texts.Assoc3("(", head, ", "); }
      "(" + (head + ", " + j) + ");" + "\n";
      VhdlLiteral.Literal(FramedTexts(s)) + "\n";
    }
  }

  /** The characters' digit texts denote their code points. */
  lemma DecodeHexTexts(s: string)
    ensures VhdlLiteral.DecodeAll(HexTexts(s)) == Codes(s)
  {
    var hs := HexTexts(s);
    forall i | 0 <= i < |s|
      ensures Numerals.Parse(hs[i], 16) == Code(s[i])
    {
      Numerals.ParseRender(Code(s[i]), 16);
    }
  }

  /** The framed code points are what the framed digit texts denote. */
  lemma DecodeFramed(s: string)
    ensures VhdlLiteral.DecodeAll(FramedTexts(s)) == Framed(s)
  {
    var head, tail := [CrDigits, LfDigits], [LfDigits, CrDigits];
    FramingValues();
    assert VhdlLiteral.DecodeAll(head) == [0x0d, 0x0a];
    assert VhdlLiteral.DecodeAll(tail) == [0x0a, 0x0d];
    DecodeHexTexts(s);
    VhdlLiteral.DecodeAllAppend(head, HexTexts(s));
    VhdlLiteral.DecodeAllAppend(head + HexTexts(s), tail);
  }

  /** For a non-empty input the array line, read back, gives the N + 4
      element texts, and these decode to the framed code points. */
  lemma ArrayLineRoundTrip(s: string)
    requires |s| >= 1
    ensures var line := ArrayLine(s);
      && |line| >= 1 && line[|line| - 1] == '\n'
      && VhdlLiteral.ParseLine(line[..|line| - 1]) == VhdlLiteral.Some(FramedTexts(s))
    ensures VhdlLiteral.DecodeAll(FramedTexts(s)) == Framed(s)
  {
    var line := ArrayLine(s);
    var lit := VhdlLiteral.Literal(FramedTexts(s));
    ArrayLineIsLiteral(s);
    assert line[..|line| - 1] == lit;
    VhdlLiteral.ParseLiteral(FramedTexts(s));
    DecodeFramed(s);
  }

  /** The order of the elements: CR, LF, the lower-case unpadded hex of every
      character's code point in input order, LF, CR. */
  lemma FramedTextsOrder(s: string)
    ensures FramedTexts(s)[..2] == [CrDigits, LfDigits]
    ensures FramedTexts(s)[|s| + 2..] == [LfDigits, CrDigits]
    ensures forall i :: 0 <= i < |s| ==> FramedTexts(s)[i + 2] == Numerals.HexDigits(Code(s[i]))
  {
    var hs := HexTexts(s);
    var front := [CrDigits, LfDigits] + hs;
    assert FramedTexts(s) == front + [LfDigits, CrDigits];
    forall i | 0 <= i < |s|
      ensures FramedTexts(s)[i + 2] == Numerals.HexDigits(Code(s[i]))
    {
      assert FramedTexts(s)[i + 2] == front[i + 2] == hs[i];
    }
  }

  /** The framed values: N + 4 of them, CR and LF around the code points. */
  lemma FramedOrder(s: string)
    ensures |Framed(s)| == |s| + 4
    ensures Framed(s)[..2] == [0x0d, 0x0a] && Framed(s)[|s| + 2..] == [0x0a, 0x0d]
    ensures forall i :: 0 <= i < |s| ==> Framed(s)[i + 2] == Code(s[i])
  {
    var cs := Codes(s);
    var front := [0x0d, 0x0a] + cs;
    assert Framed(s) == front + [0x0a, 0x0d];
    forall i | 0 <= i < |s|
      ensures Framed(s)[i + 2] == Code(s[i])
    {
      assert Framed(s)[i + 2] == front[i + 2] == cs[i];
    }
  }

  /** A non-empty input gives exactly N + 4 elements (one `x` each, as hex
      digits hold none), one closing parenthesis and one line break, which
      ends the line. */
  lemma ArrayLineCounts(s: string)
    requires |s| >= 1
    ensures multiset(ArrayLine(s))['x'] == |s| + 4
    ensures multiset(ArrayLine(s))[')'] == 1
    ensures multiset(ArrayLine(s))['\n'] == 1
  {
    var lit := VhdlLiteral.Literal(FramedTexts(s));
    ArrayLineIsLiteral(s);
    VhdlLiteral.LiteralCounts(FramedTexts(s));
    var m, mn := multiset(lit), multiset("\n");
    assert multiset(ArrayLine(s)) == m + mn;
    assert mn['x'] == 0 && mn[')'] == 0 && mn['\n'] == 1;
  }

  /** For an empty input the loop body never runs: only the opening with the
      leading CR, LF is printed, with no closing parenthesis and no line
      break, so the line is not a complete aggregate. */
  lemma EmptyInputUnterminated()
    ensures ArrayLine("") == Prefix
    ensures ')' !in Prefix && '\n' !in Prefix
    ensures VhdlLiteral.ParseLine(Prefix).None?
  {
    var head := VhdlLiteral.Join([CrDigits, LfDigits]);
    assert ')' !in head && '\n' !in head by {
      FramingValues();
      VhdlLiteral.JoinCounts([CrDigits, LfDigits]);
    }
    assert Prefix[|Prefix| - 2] == ',';
  }

  /** The echo comment: `print("--", obj)` separates its two arguments by a
      space. */
  function EchoText(s: string): (r: string)
    ensures |r| == |s| + 3 && r[..3] == "-- " && r[3..] == s
  {
    "--" + " " + s
  }

  /** The length comment: the label, a space from `print`'s separator and
      N + 4 in decimal. */
  function LengthText(s: string): (r: string)
    ensures |r| > |LengthLabel| + 1 && r[..|LengthLabel| + 1] == LengthLabel + " "
    ensures Numerals.Canonical(r[|LengthLabel| + 1..], 10)
    ensures Numerals.Parse(r[|LengthLabel| + 1..], 10) == |s| + 4
  {
    var digits := Numerals.NatToString(|s| + 4);
    var r := LengthLabel + " " + digits;
    assert r[|LengthLabel| + 1..] == digits;
    Numerals.ParseRender(|s| + 4, 10);
    r
  }

  /** Everything the script prints for the input line `s`. */
  function Output(s: string): string {
    Banner + "\n" + ArrayLine(s) + EchoText(s) + "\n" + LengthText(s) + "\n"
  }

  /** The whole script, statement by statement. */
  method Run(obj: string) returns (out: string)
    ensures out == Output(obj)
  {
    out := Banner + "\n";
    var line := GenerateArrayLine(obj);
    out := out + line;
    out := out + EchoText(obj) + "\n";
    out := out + LengthText(obj) + "\n";
  }

  /** None of the fixed texts and neither comment holds a line break. */
  lemma NoLineBreaks(s: string)
    requires '\n' !in s
    ensures '\n' !in Banner && '\n' !in LengthLabel
    ensures '\n' !in EchoText(s) && '\n' !in LengthText(s)
  {
    assert '\n' !in LengthLabel by {
      assert '\n' !in "-- string length";
      assert '\n' !in " containing CRLF on head and tail:";
    }
    var digits := Numerals.NatToString(|s| + 4);
    assert '\n' !in digits by {
      assert forall i :: 0 <= i < |digits| ==> digits[i] != '\n';
    }
    assert LengthText(s) == LengthLabel + " " + digits;
  }

  /** The printed lines when the array line is a line `lit` and its break. */
  lemma PrintedLines(s: string, lit: string)
    requires '\n' !in s && '\n' !in lit && ArrayLine(s) == lit + "\n"
    ensures Texts.Lines(Output(s)) == [Banner, lit, EchoText(s), LengthText(s)]
  {
    var e, n := EchoText(s), LengthText(s);
    NoLineBreaks(s);
    assert Output(s) == Banner + "\n" + lit + "\n" + e + "\n" + n + "\n" by {
      Texts.Assoc3(Banner + "\n", lit, "\n");
    }
    Texts.LinesOfFour(Banner, lit, e, n);
  }

  /** For a non-empty input the array line holds exactly one line break,
      at its end. */
  lemma ArrayLineOneLine(s: string)
    requires |s| >= 1
    ensures |ArrayLine(s)| >= 1 && ArrayLine(s)[|ArrayLine(s)| - 1] == '\n'
    ensures '\n' !in ArrayLine(s)[..|ArrayLine(s)| - 1]
  {
    var lit := VhdlLiteral.Literal(FramedTexts(s));
    VhdlLiteral.LiteralCounts(FramedTexts(s));
    ArrayLineIsLiteral(s);
    assert ArrayLine(s)[..|ArrayLine(s)| - 1] == lit;
  }

  /** For a non-empty input the script prints four lines: the banner, the
      array line without its break, the echo and the length comment. */
  lemma OutputLines(s: string)
    requires '\n' !in s && |s| >= 1
    ensures |ArrayLine(s)| >= 1
    ensures Texts.Lines(Output(s))
      == [Banner, ArrayLine(s)[..|ArrayLine(s)| - 1], EchoText(s), LengthText(s)]
  {
    var line := ArrayLine(s);
    ArrayLineOneLine(s);
    var lit := line[..|line| - 1];
    assert line == lit + "\n";
    PrintedLines(s, lit);
  }

  /** For an empty input the unterminated opening and the echo share one
      line, so the script prints three lines. */
  lemma EmptyOutputLines()
    ensures Texts.Lines(Output("")) == [Banner, Prefix + EchoText(""), LengthText("")]
  {
    var e, n := EchoText(""), LengthText("");
    NoLineBreaks("");
    EmptyInputUnterminated();
    assert '\n' !in Prefix + e;
    assert Output("") == Banner + "\n" + (Prefix + e) + "\n" + n + "\n" by {
      Texts.Assoc3(Banner + "\n", Prefix, e);
    }
    Texts.LinesOfThree(Banner, Prefix + e, n);
  }

  /** Reading the printed comments back: the third line gives the input
      verbatim after `-- `, the fourth gives N + 4 in decimal after the label. */
  lemma ReadBackComments(s: string)
    requires '\n' !in s && |s| >= 1
    ensures var ls := Texts.Lines(Output(s));
      && |ls| == 4
      && |ls[2]| >= 3 && ls[2][..3] == "-- " && ls[2][3..] == s
      && |ls[3]| > |LengthLabel| + 1
      && ls[3][..|LengthLabel| + 1] == LengthLabel + " "
      && Numerals.Canonical(ls[3][|LengthLabel| + 1..], 10)
      && Numerals.Parse(ls[3][|LengthLabel| + 1..], 10) == |s| + 4
  {
    OutputLines(s);
  }
}

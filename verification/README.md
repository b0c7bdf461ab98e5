# Character array generator, modelled in Dafny

`tools/char_ary_gen.py` reads one line of text. It prints a VHDL aggregate
with one hexadecimal bit-string literal per character, framed by CR, LF in
front and LF, CR behind:

    (x"0d", x"0a", x"48", x"69", x"0a", x"0d");

It then prints two VHDL comment lines. One echoes the text, and the other
reports the framed length N + 4.

The model has four modules:

- `Numerals`: Python's `"%x" % n` and `str(n)` as `Render` in base 16 and
  base 10 (lower-case, unpadded, "0" for zero). `Parse` is the digit reader
  that inverts them.
- `VhdlLiteral`: the aggregate form (`Wrap`, `Join`, `Literal`) and a reader
  for it (`ParseLine`), which returns every element's digit text in order.
  `DecodeAll` turns digit texts into the values they denote.
- `Texts`: splitting a printed text into its physical lines.
- `CharAryGen`: the script itself.
  - `Piece` is one pass of the loop at the 1-based counter `idx`.
  - `Body` and `ArrayLine` define the array line from the front of the input.
  - `GenerateArrayLine` is the loop as written, with its `idx` counter and
    text accumulator. It is proved equal to `ArrayLine`.
  - `EchoText` and `LengthText` are the two comment lines.
  - `Output` and `Run` are the whole printed text.

The main results:

- For N ≥ 1 characters, the array line is exactly `Literal` of the N + 4
  framed digit texts followed by one line break.
- The reader gives those texts back, in input order.
- They decode to CR, LF, the code points, LF, CR.
- The line holds N + 4 elements, one closing parenthesis and one line
  break.

For an empty input the loop never runs. Only the opening `(x"0d", x"0a", `
is printed, with no closing clause and no line break. The echo comment
therefore lands on the same physical line, and the script prints three
lines instead of four. The model keeps this behaviour as written.

## Model

| member | source | states |
|---|---|---|
| Numerals.Render | tools/char_ary_gen.py:10 | the digit text is non-empty and uses only digits of the base; it starts with '0' exactly when the number is 0; it is one digit long exactly when the number is below the base |
| Numerals.ParseRender | tools/char_ary_gen.py:10 | reading the rendered digits back gives the number: the `%x` text of a code point denotes that code point |
| Numerals.RenderParse | tools/char_ary_gen.py:10 | every digit string without a leading zero is the rendering of the number it denotes, so the hex form of a value is unique |
| Numerals.HexDigits | tools/char_ary_gen.py:10 | `%x` writes canonical lower-case hex: at least one digit, no leading zero unless the value is 0 |
| Numerals.HexWidth | tools/char_ary_gen.py:10 | at most two hex digits exactly for values below 256; larger code points are not rejected and take three or more digits |
| Numerals.NatToString | tools/char_ary_gen.py:17 | `str` of a natural number is canonical decimal: digits only, no leading zero unless it is 0 |
| VhdlLiteral.ParseJoin | tools/char_ary_gen.py:6-12 | a `, `-separated list of `x"…"` elements reads back as every element's digits, in order |
| VhdlLiteral.ParseLiteral | tools/char_ary_gen.py:6-12 | the reader accepts `(<elements>);` and returns the element digits, so the element count is the list's length |
| VhdlLiteral.LiteralCounts | tools/char_ary_gen.py:6-12 | an aggregate holds one `x` per element, exactly one closing parenthesis and no line break |
| CharAryGen.PrefixText | tools/char_ary_gen.py:6 | the opening printed before any character is `(x"0d", x"0a", ` |
| CharAryGen.TrailerText | tools/char_ary_gen.py:12 | after the last character's element the script writes `, x"0a", x"0d");` |
| CharAryGen.ArrayLine | tools/char_ary_gen.py:6 | whatever the input, the array line begins with the fixed opening |
| CharAryGen.Piece | tools/char_ary_gen.py:8-12 | one loop pass writes the character's element first. It contains a closing parenthesis exactly when `idx >= objlen`, and a line break under the same condition. Otherwise the rest is exactly `, ` |
| CharAryGen.BodyStep | tools/char_ary_gen.py:7-13 | the part of the line from character k onward is the loop pass at `idx = k + 1` followed by the part from k + 1 onward |
| CharAryGen.GenerateArrayLine | tools/char_ary_gen.py:3-13 | the loop, with `objlen`, the 1-based `idx` counter and the accumulated text, produces the array line |
| CharAryGen.BodyIsJoin | tools/char_ary_gen.py:7-13 | for N ≥ 1 the characters' part of the line is the joined list of their elements and the LF, CR elements, then `);` and a line break |
| CharAryGen.ArrayLineIsLiteral | tools/char_ary_gen.py:6-13 | for N ≥ 1 the array line is exactly the aggregate of the N + 4 framed elements followed by a line break |
| CharAryGen.FramingValues | tools/char_ary_gen.py:6-12 | the framing texts `0d` and `0a` are hex digits denoting CR (13) and LF (10) |
| CharAryGen.DecodeHexTexts | tools/char_ary_gen.py:10-12 | the characters' digit texts decode to their code points, in order |
| CharAryGen.DecodeFramed | tools/char_ary_gen.py:6-12 | all element texts of the line decode to CR, LF, the code points, LF, CR |
| CharAryGen.ArrayLineRoundTrip | tools/char_ary_gen.py:6-13 | for N ≥ 1 the array line ends in a line break. Without it, the line reads back as the N + 4 framed element texts, which decode to the framed code points |
| CharAryGen.FramedTextsOrder | tools/char_ary_gen.py:6-12 | element texts come in order: `0d`, `0a`, the `%x` of each character's code point in input order, `0a`, `0d` |
| CharAryGen.FramedOrder | tools/char_ary_gen.py:6-12 | the decoded values are N + 4 long: CR, LF, the code points in input order, LF, CR |
| CharAryGen.ArrayLineCounts | tools/char_ary_gen.py:4-13 | for N ≥ 1 the array line holds N + 4 elements, exactly one closing parenthesis and exactly one line break |
| CharAryGen.ArrayLineOneLine | tools/char_ary_gen.py:12 | for N ≥ 1 the only line break in the array line is the one at its end |
| CharAryGen.EmptyInputUnterminated | tools/char_ary_gen.py:6-7 | for an empty input only the opening is printed: no closing parenthesis, no line break, and the reader rejects it |
| CharAryGen.EchoText | tools/char_ary_gen.py:16 | the echo comment is `-- ` (the space from `print`'s separator) followed by the input verbatim |
| CharAryGen.LengthText | tools/char_ary_gen.py:17 | the length comment is the label and a space, followed by canonical decimal digits (no leading zero) that denote N + 4, which is `str(objlen + 4)` |
| CharAryGen.Run | tools/char_ary_gen.py:1-17 | the script, statement by statement, prints the banner line, the array line and the two comment lines |
| CharAryGen.OutputLines | tools/char_ary_gen.py:1-17 | for a one-line input with N ≥ 1 the printed text has four lines: the banner, the array line without its break, the echo and the length comment |
| CharAryGen.EmptyOutputLines | tools/char_ary_gen.py:6-17 | for an empty input the printed text has three lines; the opening and the echo share the second |
| CharAryGen.ReadBackComments | tools/char_ary_gen.py:16-17 | in the printed text, the third line gives back the input after `-- `, and the fourth is the label and a space followed by canonical decimal digits denoting N + 4 |

## Left out

- Reading standard input (tools/char_ary_gen.py:2) is replaced by the
  parameter `s`.
  - The `EOFError` on a closed input is not modelled.
  - `input()` removes the line's terminator, so the lemmas about printed
    lines require the text to hold no line feed.
- Writing to standard output is modelled as the text produced, with the
  `sep` and `end` arguments applied. Stream buffering and encoding errors
  are outside the model.
- Python strings can hold lone surrogate code points. A Dafny `char` is a
  Unicode scalar value, so such inputs are outside the model. `Code` is the
  code point, as `ord` gives it.
- The banner (tools/char_ary_gen.py:1) is the constant `Banner`. Only its
  text and its place as the first printed line are stated.
- The comment lines of the script (5, 9, 14-15) have no behaviour.
- The reading back of the aggregate from the whole printed text is stated in
  two steps:
  - `CharAryGen.OutputLines` shows that the second line is the array line
    without its break.
  - `CharAryGen.ArrayLineRoundTrip` reads that back.
